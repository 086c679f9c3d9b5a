# Verified model of go-flows

go-flows turns a stream of packets into flow records. This project models its data
structures, its timers, its concurrent stages and its specification compiler in Dafny,
and proves what they are for. `dafny verify dfyconfig.toml` checks everything.

## The files

| file | part of the program |
|---|---|
| `ExportOrder.dfy` | the two orders of export records, two-way merging |
| `ExportRecords.dfy` | export records on the heap, batches as linked lists, what a channel between two stages promises |
| `MergeWorker.dfy` | the body of one merger over linked lists, for every outcome of its `select` |
| `MergeTreeStreams.dfy` | the tree of mergers over linked lists |
| `MergeNetwork.dfy` | the tree of mergers as a state machine with bounded channels, all interleavings |
| `SortSpec.dfy`, `SortWorker.dfy` | the natural merge sort of a batch and of a channel of batches, as functions and in place |
| `DamagedBatch.dfy` | what a batch damaged by the sort stage does to the next merger |
| `ExportLog.dfy`, `ExportList.dfy` | a table's circular list of export records and its flushes, as values and in place |
| `RecordLife.dfy`, `RecordStamps.dfy` | the life of a flow's record, why it never misuses the export list, and with which packet number it is flushed |
| `Pipeline.dfy` | records, tables, sort stage, mergers and consumer together |
| `TcpEnd.dfy` | when a TCP connection is over, by its packets and by the program's flags |
| `FlowSegments.dfy` | which packets belong to one record: the plain specification |
| `LazyTimers.dfy` | one key of the table behind its lazily refreshed timers, over whole runs |
| `Flows.dfy` | the flow table and its flows, updated in place |
| `Distribution.dfy`, `Partition.dfy` | the distribution of packets over n tables and their workers, as functions and in place |
| `SameRecords.dfy` | when several tables export the very records of one table, reasons and times included |
| `EndToEnd.dfy` | from the packets of n tables to the records the consumer receives |
| `Selection.dfy`, `Statistics.dfy` | Floyd-Rivest selection, median, variance |
| `FeatureTree.dfy` | feature specifications: lowering and printed text |
| `FeatureProgram.dfy`, `FeatureMeaning.dfy` | merging common subtrees, and what the merged program computes |
| `FeatureGraph.dfy` | the graph of features that call each other |
| `BufferPool.dfy` | the lock-free pool of packet buffers |
| `Csv.dfy` | the CSV writer and a reader after RFC 4180 |
| `Wrappers.dfy` | a value that may be missing, sequences without repetitions |

Code that updates objects in place is a class with methods over heap records (`MergeWorker`,
`MergeTreeStreams`, `SortWorker`, `DamagedBatch`, `ExportList`, `Flows`, `Partition`, `Selection`, `Statistics`,
`Csv`, the simplifier in `FeatureProgram`); each method is proved against a function or a predicate,
and what the program promises is proved about those. Concurrency is modelled by state
machines (`MergeNetwork`, `BufferPool`): any enabled step may be next.

## What was found

- A message's head should point back to its tail (flows/export.go:43). The last message of
  a merger may break this, in three ways. Records of both sides were left when both channels
  were closed, and were joined (flows/exporter.go:249-258): the message is always broken.
  Records of one side were left then: it is as they were when they arrived. Or one side was
  exhausted before (flows/exporter.go:272-288): the message is as the other side's own last
  one was, forwarded or sent with a stale tail. `Run` and `MergeStreams` give this condition
  exactly, through the value `Ending`; all earlier messages are fine. Two inputs of one
  record each break it whatever the schedule, and a second merger does not repair it
  (`StaysBroken`). What every channel does promise is `ExportRecords.Stream`: all messages
  but the last before the close. It is enough for the next merger, and it is what each
  merger guarantees in turn.
- `sortWorker` loses a record of a batch of exactly two records that do not ascend: the pair
  was already reversed when the one-run shortcut sends the original head
  (flows/exporter.go:489-493). `SortBatchIsSort` and `SortStage` say so exactly: the result
  is always in order, and nothing is lost if and only if no batch is such a pair;
  `ExpiryOrderConservesIff` says it of the whole pipeline. The head sent still points back to
  the lost record, so that the next merger links what it appends afterwards to that record
  and never reaches it (`DamageLosesChannel`).
- A packet arriving exactly when a timer is due joins its record or starts a new one
  depending on when `Expire` ran before (flows/table.go:114 compares strictly,
  flows/timer.go:41 does not). `TiesDependOnTheSchedule` gives two schedules for the same
  packets; `MeetsSpecIff` gives the exact condition under which a run agrees with the
  specification, and `AnyScheduleIsAdmissible` what holds with ties as well.
- `median` promises the lower of the two middle values for an even number of values that
  are not numbers; for four or more the code falls through and panics
  (modules/features/operations/value.go:298-307). `DocumentedIff` is the exact condition,
  `FourValuesPanic` an example.
- Constants print without their type (flows/ast.go:389-391), and the printed text is what the
  compiler takes for a tree's identity (flows/ast.go:913-921). A specification with the
  integer 1 and the float 1.0 (parse.go:35-42) gets one register for both
  (`OneIsOnePointZero`), and exporting f(1) and f(1.0) is refused (`ExportsClash`).
  `TextIsIdentityIff` and `CompilerIsFaithfulIff` give the exact condition: the text
  identifies a tree, and every register computes its own feature, if and only if no two
  constants of the specification print alike but differ in type.
- `Fields` writes the same line for no field and for one empty field; `RoundTripIff` says
  that these rows are the only ones that do not come back.
- An exported feature is refused as exported twice (flows/ast.go:914-918) also when it was
  only a part of an earlier feature; `Simplify` is proved to fail exactly then, and to name
  the first feature with that part. So f(g(packet)) followed by g(packet) is refused, the
  other way round it is accepted (`PartsAreRefused`).
- With window expiry a table notices a new window only by a packet of its own, so that with
  several tables end reasons and times can differ from those of a single table
  (`WindowsShowInReasons`). `SameRecordsIff` is the exact condition under which they do not:
  whenever a packet of another table opens a window while the key has a live flow, the key's
  own table gets a packet at that same time, or one of the flow's timers fires there. With
  strictly rising times that never happens, and the records are the same if and only if no
  such packet ever meets a live flow (`SameRecordsRising`). The records hold the same packets
  all the same, ties or not (`TablesCutLikeOne`).

## Assumptions

Packet numbers, times and counters are unbounded, and `int` and `real` stand for machine
numbers (no wrap-around, rounding or NaN). The hash of a key is an arbitrary function. The
choice of a sampling window in the selection is any window around k that is smaller than
the current range; the logarithms that compute it are not part of the model. The head and
tail arrays of a merger are three queue objects. Records in `MergeNetwork` and `Pipeline`
are numbers, and every exported record has at least one feature (flows/export.go:145-147).
A stream of records in start or stop order belongs to one record position of the pipeline.
The packets of a window are consecutive (flows/event.go:11). Names and constants of a
specification print without brackets and commas.

## Model

| member | source | states |
|---|---|---|
| ExportOrder.MergeKeepsRecords | flows/exporter.go:51-76 | merging two lists neither loses nor repeats a record |
| ExportOrder.MergeIsSorted | flows/exporter.go:51-76 | merging two ordered lists gives an ordered list, for both orders |
| ExportOrder.SortedMeans | flows/export.go:85-112 | ordered means rising packet numbers, then records; in expiry order rising expiry times before that |
| ExportRecords.CarriesAppend | flows/export.go:43-43 | a channel's promise about its messages survives one more message; it stays strict only if the new head points to its tail |
| MergeWorker.RecordQueue.Append | flows/exporter.go:41-49 | a received batch joins the queue behind the tail, and the head's prev becomes the new tail; behind a stale tail the queue gets nothing |
| MergeWorker.RecordQueue.Pop | flows/exporter.go:59-65 | the queue gives up its first record and keeps the rest linked, the tail being stale once it is empty |
| MergeWorker.RecordQueue.Push | flows/exporter.go:67-75 | a merged record goes to the end of the result, whose head keeps pointing to the tail |
| MergeWorker.MergeInput.Receive | flows/exporter.go:118-127 | what an input still has to give does not change by a receive; a close is seen exactly when the channel is empty |
| MergeWorker.MergeTreeWorker.MergeOne | flows/exporter.go:51-76 | the smaller head moves to the result, the second input's on equal keys; what remains to be merged stays the same |
| MergeWorker.MergeTreeWorker.Publish | flows/exporter.go:78-88 | the result is sent as one well-formed message with head.prev at the tail, and is empty afterwards |
| MergeWorker.MergeTreeWorker.Poll | flows/exporter.go:145-176 | any interleaving of buffered deliveries keeps the merger's invariant, a close is reported |
| MergeWorker.MergeTreeWorker.MergeUntilClose | flows/exporter.go:116-213 | up to the first close, for every outcome of select, sent plus pending stays the merge of both inputs |
| MergeWorker.MergeTreeWorker.MergeRemaining | flows/exporter.go:233-237 | with one input closed everything that may be merged is merged and sent |
| MergeWorker.MergeTreeWorker.SendRest | flows/exporter.go:252-258 | the records left on one side are appended and sent as one last message; its head points to its tail if and only if nothing was merged and those records were like that already |
| MergeWorker.MergeTreeWorker.Finish | flows/exporter.go:244-259 | with both inputs closed the rest is sent completely and in order as one message; its head points to its tail if and only if only one side had records left and they were like that already |
| MergeWorker.MergeTreeWorker.Forward | flows/exporter.go:282-288 | exactly the messages of the remaining channel are sent, in order and unchanged |
| MergeWorker.MergeTreeWorker.Flush | flows/exporter.go:272-288 | once one side is exhausted the other one's queue and its further messages follow unchanged; if there are any, head.prev is at the tail of the last one if and only if it was in the last message of that input, otherwise in all messages |
| MergeWorker.MergeTreeWorker.Drain | flows/exporter.go:215-294 | from the first close on, the merger sends the rest of the merge and closes its channel; for each of its endings the last message has head.prev at its tail exactly under the stated condition |
| MergeWorker.MergeTreeWorker.Run | flows/exporter.go:112-295 | for every schedule the messages sent form a stream whose records are the merge of the inputs, with the exact condition on the last message |
| MergeWorker.MergeStreams | flows/exporter.go:112-295 | two ordered streams give one ordered stream with exactly their records, and head.prev is at the tail in all messages but, under the stated condition for each ending, the last; with one record on each side the one message always breaks it, and a side's only message is as it was if the other side has none |
| MergeWorker.AppendLost | flows/exporter.go:41-49 | behind a stale tail no further message of a channel reaches the queue |
| MergeTreeStreams.MergeAllMerges | flows/exporter.go:335-352 | merging lists level by level keeps exactly their records, and their order |
| MergeTreeStreams.MergeLevel | flows/exporter.go:341-350 | one level of mergers turns streams into half as many, each the merge of two neighbours, an odd one unchanged |
| MergeTreeStreams.MergeTree | flows/exporter.go:335-352 | for every schedule of its mergers, any number of streams of linked lists become one stream with exactly their records, in order if each of them is |
| MergeTreeStreams.StaysBroken | flows/exporter.go:244-259 | a message broken by one merger stays broken in the next one, whatever the schedule |
| MergeNetwork.StepKeepsRemaining | flows/exporter.go:112-295 | no step of any merger, source or channel changes what the network will still deliver |
| MergeNetwork.NoDeadlock | flows/exporter.go:112-295 | a network that has not delivered everything can always take a step |
| MergeNetwork.StepDecreases | flows/exporter.go:112-295 | every step brings the network closer to its end, so there is no livelock |
| MergeNetwork.EveryRunConserves | flows/exporter.go:324-352 | at every moment of every run the consumer has received a prefix of one fixed sequence |
| MergeNetwork.StuckRunHasDelivered | flows/exporter.go:324-352 | a run that cannot go on has delivered everything and closed its channels |
| MergeNetwork.MakeMergeTree | flows/exporter.go:335-352 | the loop that pairs channels level by level builds the balanced tree of mergers |
| MergeNetwork.MergeTreeMerges | flows/exporter.go:335-352 | the tree of any number of inputs delivers exactly their records, in order if each input is |
| MergeNetwork.PipelineSortsAndConserves | flows/exporter.go:541-580 | for any number of tables every run stops with exactly the tables' records received, in order if each table's are |
| SortSpec.RunsAreSorted | flows/exporter.go:354-422 | every natural run of a batch is in order |
| SortSpec.RunsKeepRecords | flows/exporter.go:354-422 | cutting a batch into runs loses and repeats no record |
| SortSpec.RunsAreNatural | flows/exporter.go:354-422 | the runs of a batch are, one after the other, its longest ascending stretches, and reversed pairs of two records that do not ascend |
| SortSpec.SortBatchIsSort | flows/exporter.go:472-535 | a batch always leaves in order; it keeps exactly its records if and only if it is not two records that do not ascend |
| SortSpec.PairIsLost | flows/exporter.go:489-493 | a concrete pair of which the second record is lost |
| SortWorker.FindNaturalSublists | flows/exporter.go:354-422 | in place, a nil-terminated list becomes the nil-terminated lists of its natural runs, all nodes included |
| SortWorker.MergeHeads | flows/exporter.go:426-447 | the relinking loop and what is left over are together the merge of both lists |
| SortWorker.MergeSublist | flows/exporter.go:424-470 | in place, two lists become their merge; the final merge also clears every prev and points the head at the tail |
| SortWorker.MergeRound | flows/exporter.go:502-521 | one round halves the lists by merging neighbours, in place in the slice of heads |
| SortWorker.SortOneBatch | flows/exporter.go:474-532 | what is reachable from the head sent is the sorted batch, and its head points to its tail unless a record was lost, when it points to that one |
| SortWorker.SortWorker | flows/exporter.go:472-535 | every message of a stream is replaced by its sorted batch; without damaged batches the result is again a strict stream |
| SortSpec.StageSize | flows/exporter.go:489-493 | the stage sends as many records as it gets if and only if no batch is damaged |
| SortSpec.SortStage | flows/exporter.go:472-535 | all batches leave in order, and the stage conserves the records if and only if no batch is two records that do not ascend |
| DamagedBatch.DamageLosesChannel | flows/exporter.go:489-493 | after a damaged batch the merger's queue gets its first record and nothing of all messages appended later |
| ExportLog.ApplyKeepsOrder | flows/table.go:59-68 | every operation in start or stop order keeps the list falling in packet numbers and above all that was flushed |
| ExportLog.FlushedInOrder | flows/table.go:152-211 | over any run with non-decreasing event numbers, the final flush included, a table flushes in order |
| ExportLog.ApplyAccounts | flows/record.go:164-201 | flushed and waiting records, with their keys, change by exactly what an operation exports; an exported record gets the expiry time and keeps the rest of its key |
| ExportLog.FlushedIsExported | flows/table.go:184-211 | over any run, after the final flush, exactly the exported records were flushed, each once, with the keys they were exported with |
| ExportLog.FlushedAsExported | flows/record.go:191-199 | over any run from an empty list on, in any order, the records flushed and their expiry times are the records exported and the times they were exported with |
| ExportLog.SelectPartitions | flows/table.go:184-211 | what flushing everything sends and what it leaves are together the list, and both keep its order |
| ExportList.Unlink | flows/export.go:124-133 | the ring without the node is a ring in the same order, and unlinking an unlinked node changes nothing |
| ExportList.Insert | flows/export.go:135-143 | the ring with the node behind the head is a ring |
| ExportList.FlushBack | flows/table.go:152-182 | the maximal exported end of a ring, back to front, becomes a nil-terminated message with head.prev at the tail; the rest stays a ring |
| ExportList.FlushEvery | flows/table.go:184-211 | all exported nodes of a ring, back to front, become such a message; the others stay a ring in their order |
| ExportList.TableExports.constructor | flows/export.go:117-122 | a new list is empty and its head points to itself |
| ExportList.TableExports.PushExport | flows/table.go:59-68 | the record is moved to the front wherever it was, except without sorting and while expiring in expiry order |
| ExportList.TableExports.Start | flows/record.go:54-67 | without sorting nothing; otherwise an unexported leftover leaves the list and a new record with this packet number, no expiry time and no features is in front |
| ExportList.TableExports.FilteredEvent | flows/record.go:125-128 | in stop and expiry order a packet renumbers its record and moves it to the front, in start order nothing changes |
| ExportList.TableExports.Export | flows/record.go:191-199 | the record gets the expiry time, keeps the rest of its key and is marked exported, in its place, or in front in expiry order; all other records keep their keys, and none enters or leaves the list |
| ExportList.TableExports.Destroy | flows/record.go:39-43 | a record that was never exported leaves the list |
| ExportList.TableExports.FlushExports | flows/table.go:152-182 | the batch is what the specification flushes, and the list keeps the rest |
| ExportList.TableExports.FlushAllExports | flows/table.go:184-211 | everything exported is flushed once, everything else stays in order |
| RecordLife.FilteredFits | flows/record.go:96-137 | whatever the control features ask for, one packet is a legal part of a record's life: the operations are enabled, an active record has its export record in the list, and no other record's is touched |
| RecordLife.FilteredCounts | flows/record.go:71-137 | whatever the control features ask for, one packet begins and exports its record exactly as often as they ask for, with this time, and every export record begun is exported, dropped or still held |
| RecordLife.EndedCounts | flows/record.go:164-201 | a flow that ends exports its record once, with this time, if it is active and not forgotten, and leaves nothing behind |
| RecordLife.LivesAreLegal | flows/record.go:39-68 | over every run of all records of a table each operation on the export list is enabled when its turn comes |
| RecordLife.LivesAreMonotone | flows/record.go:125-128 | in start and stop order, packets with rising numbers give the list operations with rising numbers and no early flush of everything |
| RecordLife.LivesAreProper | flows/record.go:164-201 | both of it from an empty table on |
| RecordStamps.FlushedStamps | flows/table.go:152-211 | over any run, the final flush included, records are flushed with the packet numbers they had when they were exported |
| RecordStamps.TableStamps | flows/record.go:125-128 | however the lives of a table's records are interleaved and whenever it flushes, every export is flushed once, with the number of the record's first packet in start order and of its last one in stop and expiry order |
| Pipeline.MessagesAre | flows/table.go:152-211 | a table's non-empty batches, one after the other, are all it flushes |
| Pipeline.TableIsGood | flows/table.go:223-248 | one table is an ordered source of exactly what it exported, with the expiry times it was exported with |
| Pipeline.EverythingArrivesInOrder | flows/exporter.go:541-604 | over whole runs of n tables in start or stop order and any schedule of the mergers, the consumer receives every flushed record once and in order, and every table flushed exactly what was exported, with the expiry times it was exported with |
| Pipeline.ExpiryOrderConservesIff | flows/exporter.go:472-580 | in expiry order, over whole runs and any schedule, the consumer receives exactly what the tables flushed if and only if no table flushes a batch of two records that do not ascend; every table flushes exactly what was exported, with the expiry times it was exported with |
| TcpEnd.ClosedIsOver | packet/flow.go:34-64 | the flags end a connection if and only if its packets do: a reset, or a FIN answered by a later ACK in both directions |
| FlowSegments.UnsplitKeepsTimeouts | flows/flow.go:69-76 | no packet of a record was due to start a new one if and only if neighbours are at most the idle timeout apart and in the same window, none is later than the first plus the active timeout, and only the last packet may end the record |
| FlowSegments.AdmissibleKeepsTimeouts | flows/flow.go:69-76 | every record of an admissible cut keeps both timeouts |
| FlowSegments.AdmissibleIsSpecIff | flows/flow.go:69-72 | records that keep both timeouts are the specification's if and only if each ends where the specification ends it |
| FlowSegments.AdmissibleIsUnique | flows/flow.go:69-72 | without ties there is only one way to cut a key's packets |
| LazyTimers.ExpireKeeps | flows/flow.go:116-121 | looking at the timers behind a stale expireNext moves no packet, keeps expireNext a lower bound of the timers, and leaves only flows that are not overdue |
| LazyTimers.WindowKeeps | flows/table.go:102-108 | a packet of a new window closes every key's flow without moving a packet, and the invariant stays |
| LazyTimers.EventKeeps | flows/table.go:110-146 | one packet is added to the key's records at the end, and the invariant stays |
| LazyTimers.RunKeeps | flows/flow.go:116-138 | in every reachable state of a key: expireNext is a lower bound of the pending timers and 0 only if none is set, and the packets so far are those in its records, in order |
| LazyTimers.AnyScheduleIsAdmissible | flows/table.go:71-150 | for any calls of Expire, ties or not: no packet of a key is lost, repeated or moved, every record keeps both timeouts and its window, and end reason and expiry time are justified by the record's packets (section 5.11 of RFC 5102) |
| LazyTimers.ScheduleDoesNotMatter | flows/table.go:71-150 | without ties the records are the specification's for every schedule |
| LazyTimers.MeetsSpecIff | flows/table.go:110-117 | with ties: the records are the specification's if and only if no packet arrives at exactly the time of a timer, none being past, while the table looks at the timers of the live flow, or has just fired one of them at that time |
| LazyTimers.EofExportsAll | flows/table.go:222-248 | at the end of the input, at any time, every packet is in exactly one exported record with a justified reason, and every record keeps both timeouts |
| LazyTimers.TiesDependOnTheSchedule | flows/timer.go:39-47 | two schedules with the same packets and different records |
| Flows.Flow.Init | flows/flow.go:194-208 | a new flow has its active timer set and no packets, and is a TCP flow if the key has the five tuple |
| Flows.Flow.AddTimer | flows/timer.go:52-60 | the timer is set, growing the list if needed, and expireNext stays a lower bound of all pending timers |
| Flows.Flow.RemoveTimer | flows/timer.go:73-87 | the timer is cleared and expireNext is the earliest one left |
| Flows.Flow.Export | flows/flow.go:142-149 | an active flow is exported once and leaves the table, an inactive one does nothing |
| Flows.Flow.Expire | flows/timer.go:36-50 | only the first due timer in the order of ids exports the flow; otherwise expireNext becomes the earliest pending timer |
| Flows.Flow.BaseEvent | flows/flow.go:173-186 | the idle timer is set again, the packet joins the record, and per-packet flows are exported |
| Flows.Flow.Event | packet/flow.go:34-64 | the flow ends exactly with a packet that closes or resets the connection, or per packet |
| Flows.Flow.CountFlags | packet/flow.go:45-63 | the four flags follow the packets, and both directions closed ends the flow |
| Flows.IndexRemove | flows/table.go:213-220 | removing a key keeps key map, slots and free list a bijection |
| Flows.IndexReuse | flows/table.go:135-139 | a flow in the last free slot keeps the bijection |
| Flows.IndexExtend | flows/table.go:132-134 | a flow in a new slot keeps the bijection |
| Flows.FlowTable.constructor | flows/table.go:38-57 | a new table is valid and shows no flow for any key |
| Flows.FlowTable.Remove | flows/table.go:213-220 | the flow's slot becomes free, unless the table is being emptied |
| Flows.FlowTable.ExpireFlow | flows/table.go:114-117 | the flow's key sees ExpireAt, no other key sees anything |
| Flows.FlowTable.Expire | flows/table.go:71-91 | every key sees ExpireAt, whatever the slots; nothing is lost |
| Flows.FlowTable.TakeSlot | flows/table.go:130-138 | a new flow gets an unused slot and no other slot changes |
| Flows.FlowTable.Deliver | flows/table.go:118-121 | the packet joins the flow of its key, and all counts still agree |
| Flows.FlowTable.IdsAreDistinct | flows/table.go:127-128 | the ids of the flows in the table and of those exported are below the number of flows so far, and no two are the same |
| Flows.FlowTable.Register | flows/table.go:126-144 | a new flow is counted, gets the next id and a slot of its own, and the largest number of flows at a time is kept |
| Flows.FlowTable.Create | flows/table.go:126-146 | a packet of an unknown key starts a flow in a slot of its own; its id is the number of flows before it |
| Flows.FlowTable.Event | flows/table.go:94-150 | a packet's key sees expiry and then the packet, no other key sees it, and a new window closes all flows first; packets and flows seen are those exported and those live |
| Flows.FlowTable.CloseAll | flows/table.go:251-276 | every live flow is exported once with this reason or because it was due, and the table is empty |
| Flows.FlowTable.EOF | flows/table.go:223-248 | the same with the forced end reason |
| Flows.FiringIsExpireAt | flows/timer.go:36-50 | firing timers by id is what a key sees as ExpireAt |
| Partition.BatchBuffer.Push | packet/multibuffer.go:141-148 | a packet is appended, or refused when the buffer is full |
| Partition.BatchBuffer.Read | packet/multibuffer.go:150-157 | the packets come back in order, then none |
| Distribution.RouteOps | packet/table.go:232-267 | the batches of one table hold exactly the packets whose keys hash to it and all expiries, in order |
| Distribution.RouteSelects | packet/table.go:250-257 | a table gets exactly the packets whose keys hash to it, each as often as it comes |
| Distribution.TablesCutLikeOne | packet/table.go:172-191 | a key's own table cuts its packets exactly where one table for all keys would, ties or not, even where it notices a new window later |
| Distribution.MineRun | packet/table.go:172-191 | without windows a key's own table takes it through the very run one table would; with windows, see `SameRecords.SameRecordsIff` |
| Distribution.OtherTables | packet/table.go:172-191 | the other tables never have anything of the key |
| Distribution.WindowsShowInReasons | flows/table.go:102-108 | with windows the same packets can end for another reason and at another time than with one table |
| SameRecords.SameRecordsIff | flows/table.go:102-108 | a key's own table exports the records, reasons and times of one table for all keys if and only if it closes the key's flow in time whenever a packet of another table opens a window while that flow is live |
| SameRecords.SameRecordsRising | flows/table.go:102-108 | with strictly rising times: if and only if no such packet meets a live flow |
| SameRecords.NoWindowsInTime | flows/table.go:102-108 | without window expiry the condition always holds |
| SameRecords.ClosedLater | flows/table.go:254-276 | a flow that is closed later is exported with a later time |
| Partition.WorkOff | packet/table.go:136-142 | each packet of a batch is one event, in order, for every key |
| Partition.Worker | packet/table.go:132-150 | every key goes through the events and expiries of the batches |
| Partition.ParallelFlowTable.Dispatch | packet/table.go:255-256 | a packet goes to the buffer of its key's hash, and the push is never refused |
| Partition.ParallelFlowTable.Fill | packet/table.go:250-257 | every buffer gets exactly its packets, in order |
| Partition.ParallelFlowTable.Event | packet/table.go:232-267 | every table gets one batch with its packets, this time, and the expiry flag if and only if the time is later than nextExpire; nothing is sent if there are no packets and no flag |
| Partition.FeedIsTimed | packet/table.go:232-248 | over a whole input the workers get every packet in order and an expiry right after each flagged batch; flagged are exactly the batches later than every flagged one before by more than the period, and later than 0 |
| Partition.SpacedIsUnique | packet/table.go:235-239 | this determines the flagged batches |
| Partition.RunTable | packet/table.go:129-151 | one table fed with batches to the end of the input exports for every key what the key's own run says, and numbers its flows from 0 on, each once |
| Partition.RunTables | packet/table.go:232-285 | n tables export for every key what the key's run through its own packets and the flagged expiries of the whole input says; each table numbers its flows from 0 on |
| Partition.OneTableOrMany | packet/table.go:232-285 | each key's records come from its own table only and hold the packets one table's would; they are the same records, reasons and times included, if and only if that table is in time with every window another one opens, and always without windows |
| Partition.TablesMeetTheSpecification | packet/table.go:232-285 | for any batching, windows and number of tables each key's packets are exported once, in order, cut by the timeouts and windows, with justified reasons; they are the specification's records exactly when no tie hits |
| EndToEnd.PrefixMarked | flows/table.go:71-150 | at every moment, what happened to a key's record tells the packet numbers of exactly the records the key has so far |
| EndToEnd.TableFlushes | flows/table.go:71-248 | a table, working through its keys in any order and flushing at any time, flushes one record for every record of every key, with its packet number; in start and stop order its packets are in sequence |
| EndToEnd.MineMarks | packet/table.go:172-191 | a key's records leave its own table with the packet numbers one table for all keys would give them, and no other table has any |
| EndToEnd.RecordsReachTheConsumer | flows/exporter.go:541-580 | from packets to the consumer, for any number of tables, any order of work in them and any schedule of the mergers: the consumer receives in order exactly one record for every record of every key, with the number of its first or last packet; a key's records are the specification's if and only if no tie hits |
| EndToEnd.MarksAscend | flows/export.go:85-96 | with packets numbered one after the other the records of a key arrive in their order |
| EndToEnd.TablesExist | flows/table.go:71-150 | every input has such a table run |
| Selection.Pass | modules/features/typedSlice.go:98-121 | one pass partitions the range around a[k] without an index leaving it, though the scans check no bounds |
| Selection.Select | modules/features/typedSlice.go:85-129 | for every admissible window only the range is rearranged, and a[k] splits it; the recursion ends |
| Selection.SplitKeeps | modules/features/typedSlice.go:96-96 | rearranging a part of the range that does not reach over p keeps the split at p |
| Selection.Max | modules/features/typedSlice.go:131-142 | the first position of a largest element |
| Statistics.SelectedIsSorted | modules/features/typedSlice.go:83-85 | the selected element is the one any sorted arrangement has there |
| Statistics.LowerMiddleIs | modules/features/operations/value.go:304-307 | the largest element of the lower half is the one any sorted arrangement has just before the middle |
| Statistics.MedianFeature.Stop | modules/features/operations/value.go:266-308 | the result is the median of the sorted values; four or more values that are no numbers, an even number of them, panic |
| Statistics.DocumentedIff | modules/features/operations/value.go:319-319 | the documented median is computed if and only if the values are numbers, odd in number or at most two |
| Statistics.FourValuesPanic | modules/features/operations/value.go:298-307 | four values that are no numbers have a documented median, and panic; four numbers have the mean of the two in the middle |
| Statistics.MoveCentre | modules/features/operations/value.go:241-248 | squared deviations about another centre |
| Statistics.VarianceFeature.Event | modules/features/operations/value.go:241-248 | after any values, mean times count is their sum and m2 their squared deviations from the mean |
| Statistics.VarianceFeature.Stop | modules/features/operations/value.go:235-239 | the two-pass sample variance from two values on, none before |
| FeatureTree.LowerIsSubstitution | flows/ast.go:837-872 | the lowered tree has no map or apply, and its value is that of the tree on the value of the replacement |
| FeatureTree.LowerTwice | flows/ast.go:837-872 | a lowered tree is not changed by lowering it again |
| FeatureTree.LowerKeepsReadable | flows/ast.go:837-872 | lowering adds no brackets or commas to names |
| FeatureTree.TextIdentifies | flows/ast.go:635-645 | printing is unambiguous but for the types of constants, whatever follows |
| FeatureTree.TextIsErased | flows/ast.go:635-645 | two trees print alike if and only if they differ in the types of constants only |
| FeatureTree.TextIsIdentityIff | flows/ast.go:913-921 | among trees that come with their constants the text identifies a tree if and only if no two constants print alike but differ in type |
| FeatureTree.TextExample | flows/ast.go:635-645 | the printed form of a call, a constant and the raw packet |
| FeatureTree.ConstantsClash | flows/ast.go:389-391 | the constants 1 and 1.0 differ and print alike |
| FeatureProgram.Simplifier.MergeRoot | flows/ast.go:913-940 | a tree that looks like one met before gets its register and must not be exported, a new one gets the next register |
| FeatureProgram.Simplifier.Merge | flows/ast.go:900-941 | exactly the subtrees that look new are added, arguments first, under the fragment's id and with its own constants; exporting a known one fails and names it |
| FeatureProgram.Simplify | flows/ast.go:944-956 | step i has register i, all subtrees that look alike have one register, which computes what the first of them says; exactly the exported fragments are exported, a fragment that looks new has its own control flag, and no other step is a control feature; an error if and only if an exported feature looks like a part of an earlier one, which it names |
| FeatureProgram.OneRegisterEach | flows/ast.go:900-956 | there are as many registers as subtrees that look different |
| FeatureMeaning.RunIsEval | flows/ast.go:923-939 | running the program gives every register the value of the tree it computes, for any deterministic features |
| FeatureMeaning.LegalIsSubtree | flows/ast.go:914-918 | without clashing constants an export is refused exactly when the feature is a subtree of an earlier one |
| FeatureMeaning.CompilerPreservesMeaning | flows/ast.go:875-956 | lowering and merging together: without clashing constants a feature's register gets the value its specification has, for any deterministic features |
| FeatureMeaning.CompilerIsFaithfulIff | flows/ast.go:875-956 | every register computes its own feature if and only if no two constants of the specification print alike but differ in type |
| FeatureMeaning.OneIsOnePointZero | flows/ast.go:924-931 | f(1) and g(1.0) take their argument from one register and get the same constant |
| FeatureMeaning.KindsDiffer | parse.go:35-42 | an interpretation of the features tells the two apart |
| FeatureMeaning.ExportsClash | flows/ast.go:914-918 | exporting f(1) and f(1.0) is refused although they are different features |
| FeatureMeaning.PartsAreRefused | flows/ast.go:914-918 | exporting f(g(packet)) and then g(packet) is refused although they are different features; the other way round it is accepted |
| FeatureGraph.Connect | flows/ast.go:1025-1032 | the edges of one fragment, both ways: its arguments position by position, and one raw event for every raw argument |
| FeatureGraph.Convert | flows/ast.go:1013-1044 | arguments position by position, callers in order and with multiplicity the exact inverse, every edge upwards; control, exported and variant features are listed once each, in order, and a feature gets the raw packets as often as it takes them |
| FeatureGraph.ByPositionIsUnique | flows/ast.go:1025-1032 | a feature's arguments are determined by their positions |
| FeatureGraph.Assemble | flows/ast.go:944-1044 | simplify and convert together: exported are exactly the fragments that are exported and no control features, control features exactly the fragments that are and look like nothing before them |
| FeatureGraph.Propagate | flows/feature.go:85-89 | an event reaches exactly the features that depend on this one, once for every way that leads there, and comes to an end |
| BufferPool.LookKeeps | packet/multibuffer.go:99-107 | Pop's loop keeps enough free buffers ahead to fill its batch |
| BufferPool.MarkKeeps | packet/multibuffer.go:100-106 | a buffer found free is still free when it is marked |
| BufferPool.SiftKeeps | packet/multibuffer.go:64-74 | release drops only free buffers and never runs out of room in its new list |
| BufferPool.ReplaceKeeps | packet/multibuffer.go:75-76 | the new list is shorter by exactly the allocation size |
| BufferPool.DropKeeps | packet/multibuffer.go:184-196 | recyclers clearing flags at any moment disturb neither loop |
| BufferPool.StepKeeps | packet/multibuffer.go:50-110 | every step of the producer and of any recycler keeps the invariant |
| BufferPool.InvIsSafe | packet/multibuffer.go:50-110 | the invariant is enough: the counter is the free buffers but for what is under way, a Pop gets exactly a batch of distinct free buffers, nothing in use is handed out, release drops exactly what its list has room for |
| BufferPool.PoolIsSafe | packet/multibuffer.go:50-110 | all of this in every interleaving of one producer and any number of recyclers |
| Csv.RowIsRead | modules/exporters/csv/csv.go:91-111 | reading back a line gives its fields, whatever follows and whatever the test for a leading space decides |
| Csv.FileIsRead | modules/exporters/csv/csv.go:91-111 | reading back a file gives its rows, an empty row as one empty field |
| Csv.RoundTripIff | modules/exporters/csv/csv.go:91-111 | the rows come back if and only if none is empty |
| Csv.EncodingIsInjective | modules/exporters/csv/csv.go:91-111 | two lines are the same only for the same fields, but for the empty row |
| Csv.CsvWriter.WriteString | modules/exporters/csv/csv.go:35-89 | the loop over the quotes writes the encoded field |
| Csv.CsvWriter.Fields | modules/exporters/csv/csv.go:91-111 | one line is written |
| Csv.CsvWriter.Export | modules/exporters/csv/csv.go:114-230 | values are written as the line of their texts, a missing one as nothing |
| Csv.MissingIsNothing | modules/exporters/csv/csv.go:151-152 | a line whose only value is missing is empty, and one between two others leaves nothing between the separators |
| Csv.CsvWriter.ContainsSpecial | modules/exporters/csv/csv.go:35-60 | a field needs quotes if it holds a quote, a separator or a line end |

## Left out

- packet decoding, key functions, filters and all per-field features: packets are a key, a time, a window, a direction and TCP flags.
- Flows.Flow.BaseEvent: a record takes every packet and stays active; the branch that drops a flow whose record became inactive (flows/flow.go:179-182) is missing, with the filters of a record (flows/record.go:139-162). What control features do to the export list is in `RecordLife`.
- Flows.FlowTable.Event: exporting appends to a log; the flush of the export lists at its end is in `ExportList` and `RecordLife`. The branch for an empty slot behind a key is missing because the key map never names one.
- Flows.FlowTable.Expire: likewise without the flush at its end.
- Flows.FlowTable.EOF: likewise without the final flush.
- RecordLife.FilteredFits: a record's features are not modelled, only what its control features ask for; without sorting there is no list, and the record is sent at once.
- Partition.RunTables: runs the workers one after another, which share nothing; the channels and the wait for garbage collection are not modelled, and buffers from the ring are new ones. A single table gets its batches whole, as `Partition.Worker` does.
- MergeWorker.MergeTreeWorker.Run: one worker with its channels' contents known in advance; workers running against each other are in `MergeNetwork`, which works on sequences of numbers instead of linked lists. Both are proved to send the function `ExportOrder.Merge` of their inputs.
- MergeTreeStreams.MergeTree: the mergers one after another, each with its inputs' contents known, as `MergeStreams` is proved for every schedule; mergers running against each other are in `MergeNetwork`.
- MergeNetwork.PipelineSortsAndConserves: without the splicer behind that copies messages to several exporters.
- Pipeline.EverythingArrivesInOrder: likewise without the splicer; in expiry order the sort stage is a function on each table's messages, not a component of the network.
- EndToEnd.RecordsReachTheConsumer: a record is followed by the packet number it is ordered by; its end reason and times are not followed past the table. Without control features and filters of a record, and without the splicer. What the keys' records see is a relation (`TableRun`); that `FlowTable` calls its records like this is not proved.
- Pipeline.ExpiryOrderConservesIff: a damaged batch costs one record here, and the messages behind it still arrive; in the program the next merger loses what it appends behind it as well (`DamagedBatch.DamageLosesChannel`). Nothing is lost in exactly the same cases, but the number of records lost is too small.
- DamagedBatch.DamageLosesChannel: one merger's queue while it appends; which messages are appended and which are forwarded unchanged depends on the schedule.
- order across batches in expiry mode: only every batch is sorted, as in the program.
- FeatureTree.Lower: trees are values, so the in-place update of arguments and the sharing of a selection by all places it is substituted into do not show; the same holds for `FeatureProgram`.
- parsing, composite expansion, candidate search and type resolution of the compiler, and the expansion of select.
- push evaluation of features, the choice among variants and templates, numeric promotion.
- stdev: its update is that of the variance; the square root, and its division of 0 by 0 for one value, are not modelled.
- BufferPool.PoolIsSafe: safety only, not the wake-up of a waiting producer; what all recyclers together still owe to the counter is one number, and a Pop's buffers are handed over, with one reference each, when it returns.
- Selection.Select: the sampling window is arbitrary instead of computed.
- Csv.CsvWriter.Export: the conversion of each type of value to text, errors of the underlying writer and flushing are not modelled; numbers and addresses are texts that need no quotes.
- fnvHash, clocks, I/O, the command line, other exporters and sources.
