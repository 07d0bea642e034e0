# A model of hiredis-vip and of the elastic worker pool

The repository's vendored Redis client, `hiredis-vip-master`, turns commands into bytes, bytes
into replies, and one command into many when its keys live on different nodes of a cluster.
This project models that client and one thread pool (`threadpool/threadpooltask.hpp`) in
Dafny and proves what they promise, for every input, every server behaviour and every run.
Where a promise does not hold, a lemma gives an input that breaks it and another says exactly
when it holds. The formats follow the Redis serialization protocol specification (RESP2),
sections "Bulk strings" and "Arrays"; the routing follows the Redis Cluster Specification,
sections "Hash tags", "MOVED Redirection" and "ASK redirection".

## Main results

- One store. A pipelined cluster client over any number of nodes, splitting MGET, DEL and
  MSET over many connections and sending other commands as they are, hands out the replies of
  one server that serves the whole commands one after the other on one store, from the argument
  vectors on (`OneStore.ClusterIsOneStore`, `OneStore.Session`, `ClientPlan.Prepare`).
- Splitting by slot preserves meaning, from the bytes of the command to the merged reply
  (`FragmentMeaning.FragmentationPreservesMeaning`, `ClusterCommand.SplitCommandIsTheCommand`).
- The bytes of a sub-command fill their announced length exactly under a condition on empty
  keys, and not otherwise (`FragmentBytes.WrittenExact`, `FragmentBytes.NineKeysOverrun`).
- On every byte string the client reads the command's bytes only, with one exception, exactly
  described: an MSET cut short behind a key (`ClusterCommand.EscapesExactly`,
  `ScanSafety.ParsedKeysContained`, `ScanSafety.CutMsetEscapes`).
- Chunk independence of the reply reader, and its round trip for every form a reply has on the
  wire, null arrays included, with its exact nesting limit (`Resp.ChunkIndependence`,
  `RespCodec.RoundTrip`, `Reader.Reader.Drive`).
- The command parser inverts the formatter on every argument vector and is safe on every
  byte string (`CommandArity.ParserInvertsFormatter`, `CommandParser.RunSafe`).
- Pipelines keep the order of replies over many connections that may fail at any use, whatever
  the servers say and whatever comes next, if and only if no append and no read stopped half
  way, other than over a connection that carried all it left behind and nothing else that is
  waited for (`PipelineLoss.OrderIffClean`, `PipelineOrder.OrderKept`,
  `PipelineLoss.MissedAnswer`); a reset mends a lost order exactly when it closes the connections
  (`PipelineReset.ResetExactly`, `PipelineReset.ResetMissesOrphan`).
- Redirections are bounded; through any of them a command that gets a reply has had the effect
  and the reply of being served once and whole (`Redirect.Context.FormattedCommand`,
  `RedirectMeaning.AtMostOnce`, `RedirectMeaning.RedirectedCommand`). What a command does and how
  it ends is determined by the servers and connections, each failure by its cause, and where all
  is well it fails only for want of retries (`Redirect.Determined`, `Redirect.HealthyCommand`).
- Route updates are all or nothing; the binary search agrees with the table except on an
  exactly described set of slots (`Route.Context.Update`, `Route.Search`).
- Asynchronous callbacks are first come, first served in every run with re-entrant callbacks;
  a run dies at an assertion exactly under a stated condition on its reads, and never when
  programs disconnect with nothing pending (`Async.EveryRunIsFair`, `Async.AbortsExactly`,
  `Async.RunAborts`, `Async.CivilRunsSurvive`); whatever ends a connection calls back everybody
  who waits (`Async.EndingEvents`, `Async.BrokenReadEnds`).
- The resizing hash table is a finite map, the linked list a sequence, both as nodes on the heap
  and with deletion while iterating (`Dicts.Drive`, `DictIterators.Sweep`, `AdList.Sweep`).
- Table-driven CRC16 is polynomial division, and the slot of a key its remainder modulo 16384
  (`Crc16.CrcIsRemainder`, `KeySlot.SlotIsModulo`); quoting and splitting are inverse, and a
  line splits into what its words mean (`Quote.QuoteRoundTrip`, `Quote.LineSplits`); the worker pool loses no task
  (`WorkerPool.NothingLost`).

## Layout

| files | what |
|---|---|
| `Bytes`, `Decimal` | bytes and decimal numerals |
| `Resp`, `RespCodec`, `Reader` | the reply protocol as a machine, its wire forms, and the reader object |
| `Format`, `Commands`, `CommandParser`, `CommandRoundTrip`, `CommandArity` | formatting and parsing commands |
| `Crc16`, `KeySlot` | checksum and hash slots |
| `Scan`, `ScanSafety` | the scan behind MSET keys, and what the parser guarantees it |
| `Store`, `Merge`, `FragmentMeaning`, `FragmentBytes`, `Fragment`, `ClusterCommand` | splitting commands by slot |
| `Pipeline`, `PipelineOrder`, `PipelineLoss`, `PipelineReset` | connections that may fail, the order of replies, the reset |
| `ClientPlan`, `OneStore`, `StoreRuns` | from argument vectors to requests, the one-store theorem, runs over GET and SET |
| `Redirect`, `RedirectMeaning`, `Route` | redirections, their effect on the data, the slot table |
| `Async`, `AsyncContext` | the callback machine and the context object |
| `Chains`, `Dict`, `DictIterator`, `AdList`, `Quote` | data structures and quoting |
| `WorkerPool` | the thread pool |

Objects the source updates in place are classes (`Reader`, the three `Context`s,
`AsyncContext`, `Dict`, `List` and the iterators); loops are methods with invariants, proved
against functions or relations whose meaning the lemmas establish. Servers, networks, route
replies, callbacks and thread schedules are parameters that may be anything.

## Model

| member | source | states |
|---|---|---|
| Resp.FindCrlf | hiredis-vip-master/read.c:120-144 | the first CR LF pair of the input, or -1 exactly when there is none; a CR without its LF is passed over |
| Resp.Step | hiredis-vip-master/read.c:367-414 | one item of the reply protocol, taken from what has arrived: either it consumes input, or it asks for more or reports an error; the stack of open arrays never exceeds eight levels; which reply it builds is settled by RespCodec.RoundTrip |
| Resp.StepExtend | hiredis-vip-master/read.c:367-414 | bytes that arrive later change nothing about an item that was complete or wrong, and an item that was waiting resumes as if all had come at once |
| Resp.RunExtend | hiredis-vip-master/read.c:477-525 | parsing a prefix and then the rest is parsing the whole |
| Resp.RunIsRepeatedNext | hiredis-vip-master/read.c:477-525 | asking for one reply at a time gives the replies, the error and the unread rest of the whole input |
| Resp.ApplyKeepsOutlook | hiredis-vip-master/read.c:445-525 | no single feed or get changes what will have been said in the end |
| Resp.ChunkIndependence | hiredis-vip-master/read.c:190-525 | however the stream is cut into feeds and however gets are interleaved, the replies said so far followed by those to come, and the first error, are those of the whole stream parsed at once |
| Resp.DrainedReaderSaidAll | hiredis-vip-master/read.c:445-525 | a reader that has no further reply has said exactly the replies of everything fed, and its error is the error of the whole stream |
| RespCodec.LongLongOfNumeral | hiredis-vip-master/read.c:148-173 | the number reader undoes decimal printing of every integer, negative ones included |
| RespCodec.LongLongIsNumber | hiredis-vip-master/read.c:148-173 | the number reader gives every line without CR its value, with a sign or without, and -1 when it is malformed |
| RespCodec.EncodeIsWire | hiredis-vip-master/read.c:215-365 | what a server prints for a reply tree is one of its wire forms, with as many array levels as the tree |
| RespCodec.ReadsBack | hiredis-vip-master/read.c:215-365 | inside any open arrays, every form of a reply tree on the wire is rebuilt and handed to its parent, consuming exactly its own bytes: null bulk strings and null arrays are nil at every place of the tree, numbers may have signs and leading zeros, and a malformed number is read as -1 |
| RespCodec.TooDeepIsRefused | hiredis-vip-master/read.c:309-314 | a form that would open a ninth array level, a null or empty array counting as one, is refused with that error, wherever it is met |
| RespCodec.RoundTrip | hiredis-vip-master/read.c:148-414 | any wire form of a reply tree is read as that tree and consumes its own bytes if it has at most eight array levels, and is refused otherwise |
| RespCodec.StreamRoundTrip | hiredis-vip-master/read.c:477-525 | a pipelined stream of replies in any wire form is read back as that list, and then whatever follows is read |
| RespCodec.WholeStream | hiredis-vip-master/read.c:477-525 | when nothing follows, exactly that list has been said, nothing is left over and there is no error |
| RespCodec.OtherBytesAreRefused | hiredis-vip-master/read.c:367-394 | after any replies, an item whose first byte is none of the five types is refused with an error naming that byte |
| RespCodec.AnyCutsReadBack | hiredis-vip-master/read.c:445-525 | replies in any wire form come out in order and without error however they are cut into chunks, and all of them once the reader runs dry |
| Reader.SeekNewline | hiredis-vip-master/read.c:120-144 | the memchr loop finds the first CR LF pair |
| Reader.ReadLongLong | hiredis-vip-master/read.c:148-173 | the digit loop computes the signed number in front of the CR |
| Reader.DeliverPops | hiredis-vip-master/read.c:190-213 | popping a finished array task keeps the stack well linked and hands the array to the task below it |
| Reader.PushOpens | hiredis-vip-master/read.c:343-353 | pushing the first element of an array keeps the stack well linked and opens one frame |
| Reader.Reader.SetError | hiredis-vip-master/read.c:46-70 | an error leaves an empty buffer and an empty stack |
| Reader.Reader.MoveToNextTask | hiredis-vip-master/read.c:190-213 | after a value is stored the stack is well linked again and the task on top is fresh, or the root is complete |
| Reader.Reader.ReadLine | hiredis-vip-master/read.c:175-188 | a line is consumed with its CR LF, or nothing is consumed |
| Reader.Reader.ProcessLineItem | hiredis-vip-master/read.c:215-247 | status, error and integer items do to the task stack what the protocol step does to the open arrays |
| Reader.Reader.ProcessBulkItem | hiredis-vip-master/read.c:249-300 | bulk strings likewise, null ones included; a body that has not arrived in full leaves the position before its header |
| Reader.Reader.ProcessMultiBulkItem | hiredis-vip-master/read.c:302-365 | array headers likewise, with null, empty and too deep arrays; that a null array is nil is RespCodec.ReadsBack |
| Reader.Reader.ProcessItem | hiredis-vip-master/read.c:367-414 | the type byte is read once, also across calls, and an unknown one is an error |
| Reader.Reader.FeedChunk | hiredis-vip-master/read.c:445-475 | feeding appends to the unread input and never disturbs the parse |
| Reader.Reader.GetReplyObject | hiredis-vip-master/read.c:477-525 | the object hands out the next reply of the stream, discards consumed input from 1024 bytes on, and ends for every input |
| Reader.Reader.Drive | hiredis-vip-master/read.c:445-525 | any sequence of calls on the object satisfies chunk independence |
| Decimal.CountDigits | hiredis-vip-master/hiredis.c:193-203 | the digit count by steps of four is the length of the decimal numeral |
| Decimal.UintLen | hiredis-vip-master/hiutil.c:250-266 | the digit count by division is the length of the decimal numeral |
| Decimal.HiAtoi | hiredis-vip-master/hiutil.c:165-187 | the value of a string of digits as a 32-bit int, -1 for the empty string, for anything else and for a value that wraps below zero; it is the value itself exactly when that is below 2^31 |
| Decimal.HiItoa | hiredis-vip-master/hiutil.c:189-237 | the numeral and its terminator are written in place and nothing behind them changes; for zero only the first byte is written |
| Format.BulkLen | hiredis-vip-master/hiredis.c:206-208 | the announced length of a bulk string is its real length, for every content |
| Format.TotalLength | hiredis-vip-master/hiredis.c:540-545 | the length computed in advance is the length of the formatted command |
| Format.FormatCommandArgv | hiredis-vip-master/hiredis.c:530-566 | the buffer is filled to its last byte with the command and a terminator |
| Format.FormatReadsBack | hiredis-vip-master/hiredis.c:530-566 | a formatted command, whatever follows it, is read back as the array of its arguments |
| Format.FormatInjective | hiredis-vip-master/hiredis.c:530-566 | two commands never share their bytes, not even with different bytes behind them |
| Commands.EachCommandHasOneClass | hiredis-vip-master/command.c:16-289 | the nine classifiers divide the known commands: each has exactly one class, and nothing else has any |
| Commands.TypeIsName | hiredis-vip-master/command.c:462-1029 | the switch over lengths and letters recognises a command exactly when the bytes are, letter by letter and in any case, its name in the list of the protocol's names |
| Commands.TypeIsNamed | hiredis-vip-master/command.c:462-1029 | every name has one meaning: the command it names, or none, and that is what the switch finds |
| CommandParser.TurnSafe | hiredis-vip-master/command.c:361-1590 | each turn of the 27-state machine keeps the cursor in the buffer, the token inside the command, and the recorded keys in range, disjoint and at least three bytes apart |
| CommandParser.RunSafe | hiredis-vip-master/command.c:315-1621 | on every byte string, malformed or cut short, recorded keys are in range, increasing, disjoint and end at a CR, and more than one is recorded only for MGET, DEL or MSET |
| CommandParser.RedisParseCmd | hiredis-vip-master/command.c:315-1621 | the loop ends with the verdict, type and keys of the machine; its keys are safe to use and hardly more than a third as many as there are bytes |
| CommandRoundTrip.FoldIsValue | hiredis-vip-master/command.c:366-426 | the number loops, which wrap at 32 bits, compute the value modulo 2 to the 32 |
| CommandRoundTrip.ArgumentBlock | hiredis-vip-master/command.c:405-1583 | the bytes of one argument take the machine from one argument boundary to the next |
| CommandRoundTrip.WalkRuns | hiredis-vip-master/command.c:361-1594 | from any argument on, the machine on the bytes does what a walk over the arguments does |
| CommandRoundTrip.KeyBytes | hiredis-vip-master/hiredis.c:552-560 | the position computed for an argument holds exactly that argument |
| CommandArity.WalkJudges | hiredis-vip-master/command.c:1038-1583 | the walk over the arguments accepts exactly the legal argument counts, cuts short exactly a lone name, and collects the keys of the class |
| CommandArity.LegalByTable | hiredis-vip-master/command.c:16-289 | the argument counts accepted and the key arguments found are, command by command, those of a table of arguments in the order of the enumeration: none, exactly so many, any number, keys, pairs, or a script |
| CommandArity.ParserInvertsFormatter | hiredis-vip-master/command.c:315-1621 | for every argument vector, whichever command its first argument names or none: accepted exactly with a known name and legal count, then with that type and exactly its key arguments; a lone name of a command that needs keys is reported as cut short, and MSET key without value is accepted |
| Crc16.TableOk | hiredis-vip-master/crc16.c:46-79 | all 256 table entries are eight steps of the shift register on that byte |
| Crc16.DivisionIsSerial | hiredis-vip-master/crc16.c:30-87 | long division of the bits and the bit-serial register agree on every bit string |
| Crc16.CrcIsRemainder | hiredis-vip-master/crc16.c:81-87 | the table-driven loop computes the remainder of dividing the message by x^16 + x^12 + x^5 + 1 |
| Crc16.Checksum | hiredis-vip-master/crc16.c:81-87 | the loop as written returns that remainder |
| KeySlot.KeyHashSlot | hiredis-vip-master/hircluster.c:171-190 | the two scans and the checksum give the slot of the key, always below 16384; which slot that is, is KeySlot.SlotIsModulo |
| KeySlot.MaskIsModulo | hiredis-vip-master/hircluster.c:178-189 | the mask of fourteen bits is the remainder modulo 16384, for every checksum |
| KeySlot.SlotIsModulo | hiredis-vip-master/hircluster.c:171-190 | the slot of every key is the CRC remainder of its hashed part, as a number, modulo 16384 |
| KeySlot.HashTagMeaning | hiredis-vip-master/hircluster.c:171-190 | only the text between the first { and the next } is hashed, if there is any |
| KeySlot.NoTagMeaning | hiredis-vip-master/hircluster.c:177-185 | when no } follows a {, the whole key is hashed |
| KeySlot.ZeroSlot | hiredis-vip-master/hircluster.c:171-190 | keys of zero bytes, of any length, are all in slot 0 |
| KeySlot.SameTagSameSlot | hiredis-vip-master/hircluster.c:162-170 | keys with the same tag are in the same slot, whatever surrounds it |
| KeySlot.EverySlotHasAKey | hiredis-vip-master/hircluster.c:171-190 | every one of the 16384 slots has a key, of two bytes |
| Crc16.EveryRemainder | hiredis-vip-master/crc16.c:81-87 | every 16-bit checksum is that of some message of two bytes |
| Store.DelSlotsIsDel | hiredis-vip-master/hircluster.c:3148-3421 | DEL slot by slot deletes the same keys and counts the same, duplicates included |
| Store.MsetSlotsIsMset | hiredis-vip-master/hircluster.c:3148-3421 | MSET slot by slot leaves the same store, the last of duplicate pairs winning |
| Store.RankInSlot | hiredis-vip-master/hircluster.c:3186-3225 | a key is, within its sub-command, behind exactly the earlier keys of its slot |
| Merge.CheckReplies | hiredis-vip-master/hircluster.c:3432-3470 | the first null, error or ill-typed sub-reply in list order decides, and the integers add up; what then comes out is stated by index below |
| Merge.TakeElements | hiredis-vip-master/hircluster.c:3496-3520 | every key takes the last element left in its sub-reply, from the last key to the first |
| Merge.PostFragment | hiredis-vip-master/hircluster.c:3423-3543 | the merged reply, the error reply passed through, or null: the method computes the function the next four rows are about |
| Merge.ErrorIsHandedOut | hiredis-vip-master/hircluster.c:3442-3445 | a sub-reply that is an error, all before it being right, is itself the reply of the command, whatever follows |
| Merge.WrongTypeIsNull | hiredis-vip-master/hircluster.c:3432-3470 | a sub-reply that is null or of the wrong type, all before it being right, leaves the command without reply |
| Merge.TakeAllExactly | hiredis-vip-master/hircluster.c:3496-3520 | every key gets an element exactly when every slot has as many elements as keys, and then it is the one as far from the end as there are later keys of its slot |
| Merge.RightMerge | hiredis-vip-master/hircluster.c:3472-3543 | sub-replies that are all right give no error: OK for MSET, the sum for DEL, and for MGET the array dealt out as above, or null exactly when elements are missing |
| FragmentMeaning.MgetMerges | hiredis-vip-master/hircluster.c:3496-3520 | each key of an MGET gets its own value and every element of every sub-reply is used exactly once |
| FragmentMeaning.FragmentationPreservesMeaning | hiredis-vip-master/hircluster.c:3148-3543 | for every store and every MGET, DEL or MSET, duplicate keys included, the sub-commands run in slot order and merged give the reply and the final store of the whole command |
| FragmentBytes.WrittenExact | hiredis-vip-master/hircluster.c:3250-3397 | a sub-command fills its announced length, and is the well-formed command of its keys, if and only if no empty key is printed over a number of two or more digits |
| FragmentBytes.NonEmptyKeysAreClean | hiredis-vip-master/hircluster.c:3286-3291 | non-empty keys always meet that condition |
| FragmentBytes.EmptyKeyOverruns | hiredis-vip-master/hiutil.c:208-212 | an MGET of an empty key and eight others in one slot writes more bytes than announced |
| FragmentBytes.NineKeysOverrun | hiredis-vip-master/hircluster.c:3250-3301 | such a command: the nine keys of zero to eight zero bytes are all in slot 0, and their sub-command overruns its buffer |
| FragmentBytes.RawExact | hiredis-vip-master/hircluster.c:3250-3397 | on any bytes behind the keys, well formed or not, the buffer allocated is filled exactly when no empty key is printed over a longer number, and overrun otherwise |
| FragmentBytes.RawIsWritten | hiredis-vip-master/hircluster.c:3250-3397 | for the arguments of a formatted command the bytes and length are those of the sub-command's own argument vector |
| Scan.ScanRemain | hiredis-vip-master/hircluster.c:3227-3247 | on any bytes: the two loops behind an MSET key compute the length of what follows it, modulo 2 to the 32, or run out of the buffer |
| Scan.ScanStays | hiredis-vip-master/hircluster.c:3231-3241 | they stay inside exactly when some digit behind the key has a byte that is no digit behind it |
| Scan.ValuedScan | hiredis-vip-master/hircluster.c:3227-3247 | behind a key with a whole value they measure exactly that value |
| ScanSafety.KvTurn | hiredis-vip-master/command.c:361-1590 | every turn of the parser on an MSET knows how far the value behind the last key has come, and that all earlier ones are whole |
| ScanSafety.ParsedKeysContained | hiredis-vip-master/hircluster.c:3227-3247 | on every byte string: if the parser finishes a command of several keys, scanning and copying them reads the buffer only; if the command was cut short, so it is for every key but the last |
| ScanSafety.CutMsetEscapes | hiredis-vip-master/command.c:1592-1594 | an MSET of five arguments cut off behind its second key is accepted with two keys, and the scan behind the second leaves the buffer |
| Fragment.DealKeys | hiredis-vip-master/hircluster.c:3186-3248 | on any parsed bytes: it stays in the buffer exactly when every key does, and then every key goes to the sub-command of its slot, in order, with the lengths adding up, and frag_seq names that sub-command |
| Fragment.CopyKeys | hiredis-vip-master/hircluster.c:3283-3299 | all keys, lengths and values are copied out of the original command in order |
| Fragment.BuildSub | hiredis-vip-master/hircluster.c:3250-3397 | header, announced length and bytes of one sub-command |
| Fragment.PreFragment | hiredis-vip-master/hircluster.c:3148-3421 | on any parsed bytes: one sub-command per used slot, in slot order, with its keys in original order and the bytes behind them; a single one is dropped again; it reads past the buffer exactly when a scan or copy does |
| ClusterCommand.KeysAreEntries | hiredis-vip-master/command.c:1091-1183 | what the parser records of an MGET, DEL or MSET are its keys, one by one |
| ClusterCommand.SubCommandParses | hiredis-vip-master/hircluster.c:3250-3397 | a sub-command parses to the type of the whole command with exactly its slot's keys in original order |
| ClusterCommand.SplitCommandIsTheCommand | hiredis-vip-master/hircluster.c:3148-3543 | from bytes to bytes: serving the sub-commands' bytes in slot order and merging is serving the command's bytes, in reply and store |
| ClusterCommand.FormatBySlot | hiredis-vip-master/hircluster.c:3552-3600 | parse, refuse, route whole or split: the plan made for any bytes |
| ClusterCommand.EscapesExactly | hiredis-vip-master/hircluster.c:3552-3600 | the client reads past the bytes of a command exactly when it is an MSET of several keys, cut short, whose last key has no measurable value behind it inside the buffer |
| ClusterCommand.FormattedPlan | hiredis-vip-master/hircluster.c:3552-3600 | for a formatted command the plan is that of its argument vector: refused, whole, or the sub-commands of its slots |
| PipelineOrder.InOrderSend | hiredis-vip-master/hircluster.c:2812-2849 | a part appended to a connection is behind all unanswered parts of that connection |
| PipelineOrder.InOrderTake | hiredis-vip-master/hircluster.c:2853-2903 | the next answer of the connection of the oldest part is the answer to that part |
| Pipeline.Context.Send | hiredis-vip-master/hircluster.c:2812-2849 | the part joins the connection of its slot's node; false exactly when the slot has no node or its connection fails, and then nothing is sent and what was on the way over that connection is lost |
| Pipeline.Context.Receive | hiredis-vip-master/hircluster.c:2853-2903 | the answer read is the next unread one of the node's connection; none when the connection fails or has nothing to come, and then it is lost |
| Pipeline.Context.SendAll | hiredis-vip-master/hircluster.c:3856-3869 | the parts go out in order up to the first without a node or with a failing connection |
| Pipeline.Context.Append | hiredis-vip-master/hircluster.c:3790-3926 | success exactly when all slots have nodes and no connection fails, and then the command is queued; otherwise it is not, and the parts sent before stay with their connections |
| Pipeline.Context.ReceiveAll | hiredis-vip-master/hircluster.c:4128-4154 | one answer is read for each part, in order, each from the connection of its node, up to the first that fails |
| Pipeline.Context.GetReply | hiredis-vip-master/hircluster.c:4076-4170 | the oldest command leaves the queue with the answers read for its parts, merged if it was split, or with an error if one was not read; null when nothing is queued |
| Pipeline.Drive | hiredis-vip-master/hircluster.c:3790-4170 | any appends and takes in any order, with connections failing anywhere, are a run of the machine, state by state and reply by reply |
| PipelineOrder.OrderKept | hiredis-vip-master/hircluster.c:3790-4170 | from an idle pipeline, while every call is clean, the replies taken are, in order, the ones the commands deserve, or errors, and the others are still due; when no connection fails they are exactly those |
| PipelineOrder.TakeLostInStep | hiredis-vip-master/hircluster.c:4128-4154 | a connection may fail during a read without harm when the parts not read, and no other command, were waiting for it |
| PipelineOrder.AppendLostInStep | hiredis-vip-master/hircluster.c:3921-3923 | and during an append when all parts sent, and no queued command, were on it |
| PipelineLoss.UncleanStep | hiredis-vip-master/hircluster.c:3921-3923 | a call that is not clean leaves a connection with answers nobody waits for, or with fewer than are waited for |
| PipelineLoss.LateReply | hiredis-vip-master/hircluster.c:4128-4154 | from then on a later command of that connection's node is handed a reply that is not its own |
| PipelineLoss.OrderIffClean | hiredis-vip-master/hircluster.c:3790-4170 | from an idle pipeline, at every point of a run, the replies are those deserved in order, or errors, for every server and every continuation without failures, if and only if every call so far was clean: it did not stop half way, or all it left behind was on the connection that failed and no queued command waits for that connection |
| PipelineLoss.UncleanIsSeen | hiredis-vip-master/hircluster.c:3790-4170 | otherwise GETs of a key of the node and takes show a wrong reply |
| PipelineLoss.ReplyCount | hiredis-vip-master/hircluster.c:4076-4170 | every queued command gets one reply or error, or is still queued |
| PipelineLoss.OrphanAnswer | hiredis-vip-master/hircluster.c:3921-3923 | such a run, for every server: an MGET whose second slot has no node, then a command for the first slot, whose reply is the answer to the orphaned part |
| PipelineLoss.MissedAnswer | hiredis-vip-master/hircluster.c:4128-4154 | another: an MGET over two nodes, the connection to the first failing while it is read; a command for the second node gets the answer to the unread part |
| StoreRuns.ArrayForValue | hiredis-vip-master/hircluster.c:3921-3923 | the first run with real data: a GET gets the array that answers a part of an MGET, instead of its value |
| StoreRuns.ArrayAfterFailure | hiredis-vip-master/hircluster.c:4128-4154 | the second run with real data: the same wrong array after a failed read |
| PipelineReset.ClearAll | hiredis-vip-master/hircluster.c:4033-4074 | closing all connections: nothing is on the way any more, and nothing is queued |
| PipelineReset.Reset | hiredis-vip-master/hircluster.c:4172-4202 | a reset after an error closes all connections; otherwise it takes replies until none is queued, and closes the connections if one of them fails |
| PipelineReset.ResetExactly | hiredis-vip-master/hircluster.c:4172-4202 | it leaves an idle pipeline if and only if it closed the connections or no connection had more or fewer answers on the way than are waited for |
| PipelineReset.InStepReset | hiredis-vip-master/hircluster.c:4172-4202 | an orderly pipeline is always idle after a reset |
| PipelineReset.ResetMissesOrphan | hiredis-vip-master/hircluster.c:4182-4197 | a run after which a reset without error leaves an answer on the way: a half-sent MGET, a GET and its wrong reply |
| OneStore.ExecLocal | hiredis-vip-master/hircluster.c:3148-3421 | what a sub-command says and does depends on its own keys only, and it touches no others |
| OneStore.PartIsLocal | hiredis-vip-master/hircluster.c:2812-2849 | a command that keeps to its slot, sent to the node of that slot, answers and acts as on one store holding all nodes' keys |
| OneStore.MeansLocal | hiredis-vip-master/hircluster.c:3148-3421 | every part of a split command keeps to its slot, and so does an unsplit one |
| OneStore.SplitRuns | hiredis-vip-master/hircluster.c:3856-3869 | the parts of a command, sent to their nodes, are its slots run in order on that one store |
| OneStore.CommandRuns | hiredis-vip-master/hircluster.c:3790-4170 | an MGET, DEL or MSET, whole or split, gets the reply and leaves the store of serving it whole on one server |
| OneStore.ClusterIsOneStore | hiredis-vip-master/hircluster.c:3790-4170 | the replies promised for any run of commands over any number of nodes are those of one server serving the commands one after the other on one store, and the nodes together end with that store; refused commands and those whose first slot has no node add nothing |
| ClientPlan.PlanIsRequest | hiredis-vip-master/hircluster.c:3552-3600 | the plan the client makes for an MGET, DEL or MSET has the slots, sub-command bytes and key order of that theorem |
| ClientPlan.PlanIsWanted | hiredis-vip-master/hircluster.c:3552-3600 | for every argument vector the plan is the request, the slots and the bytes that the arguments call for, or a refusal |
| ClientPlan.Prepare | hiredis-vip-master/hircluster.c:3969-3990 | formatting the arguments, parsing the bytes and splitting the command gives just that, for every argument vector |
| OneStore.Session | hiredis-vip-master/hircluster.c:3790-4170 | a client of an idle pipeline, giving argument vectors, takes the replies of that one server, in order; as many are owed as commands are queued, and the nodes together hold its store |
| OneStore.Connect | hiredis-vip-master/hircluster.c:3790-4170 | so does a client that has just connected to nodes among which one store is cut up by slot |
| StoreRuns.PlainIsLocal | hiredis-vip-master/hircluster.c:3552-3600 | GET and SET, served by their key, keep to the slot they are sent to, as the theorem asks of commands that are not split |
| Redirect.OnlyTheLastCounts | hiredis-vip-master/hircluster.c:3067-3146 | only the last node a command was sent to can have carried it out: every earlier one redirected it |
| Redirect.SendsAreBounded | hiredis-vip-master/hircluster.c:3068-3077 | every copy sent but the last was paid for with a retry |
| Redirect.AskedNodeIsAnnounced | hiredis-vip-master/hircluster.c:3095-3127 | a command goes to an ASK target only right after ASKING on that connection, and ASKING only after an ASK reply |
| Redirect.Context.FindNode | hiredis-vip-master/hircluster.c:3007-3050 | the node the table in force gives the slot, when its connection is up; when it is broken, a reachable one, for one retry; a failure only on its grounds: the slot has no node, there is no context, the broken connection does not come back, no other node is reachable, or the retries are spent |
| Redirect.Context.FindOther | hiredis-vip-master/hircluster.c:3024-3050 | in place of a node whose connection is broken, one that can be reached and whose connection is up, for one retry, or a failure on its grounds |
| Redirect.Context.Transmit | hiredis-vip-master/hircluster.c:3052-3077 | one copy goes to that node and its answer decides: returned, or counted as a retry, or too many |
| Redirect.Context.Follow | hiredis-vip-master/hircluster.c:3079-3142 | MOVED replaces the table, ASK names the next node and it is told ASKING, the others just try again |
| Redirect.Context.Execute | hiredis-vip-master/hircluster.c:2998-3146 | against any servers: it ends; what it did follows the rules above and is what the world answered; the retries counted are exactly the redirections and broken connections; the reply returned is the answer to the last copy and no redirection; too many redirects are reported exactly when the limit is exceeded, and every other failure only when the world gave its cause |
| Redirect.Determined | hiredis-vip-master/hircluster.c:2998-3146 | the world leaves no choice: the copies sent, the table in force and the result of a command are determined by what the servers and connections do |
| Redirect.FirstAnswer | hiredis-vip-master/hircluster.c:3052-3146 | a reply handed out is the answer to the last copy and redirects nowhere, and every copy before it was redirected |
| Redirect.OneSend | hiredis-vip-master/hircluster.c:3007-3063 | a node that is up, takes the command and answers it without redirecting is sent one copy, and its answer is the result |
| Redirect.HealthyIsAnswered | hiredis-vip-master/hircluster.c:2998-3146 | when every connection is up and every question is answered, a command gets a reply, or is redirected more often than the limit allows |
| Redirect.TypesByText | hiredis-vip-master/hircluster.c:212-254 | MOVED, ASK, TRYAGAIN, CROSSSLOT and CLUSTERDOWN are told apart by their letters and from all other replies, both ways |
| Redirect.Context.FormattedCommand | hiredis-vip-master/hircluster.c:3613-3731 | m parts cost at most m + max_redirect_count copies, each part is executed once and in order under the table its predecessors left, all of them unless one fails or is answered with an error, the caller gets the merged reply or nothing on a failure, and retry_count is 0 again |
| Redirect.HealthyCommand | hiredis-vip-master/hircluster.c:3613-3731 | when every connection is up and every question is answered, a command of any number of parts fails only for want of retries |
| RedirectMeaning.AtMostOnce | hiredis-vip-master/hircluster.c:2998-3146 | however often it is sent, a command takes effect at most once, and lost answers included; when it settles, exactly once and with the server's reply |
| RedirectMeaning.StoryEffect | hiredis-vip-master/hircluster.c:3613-3731 | through any redirections the parts of a command take effect in order, each at most once, and only the last can be in doubt |
| RedirectMeaning.RedirectedCommand | hiredis-vip-master/hircluster.c:3613-3731 | a split command that gets a reply gets the reply, and has had the effect, of being served once and whole; one that gets none has had the effect of its first parts |
| RedirectMeaning.Perform | hiredis-vip-master/hircluster.c:3613-3787 | so it is for every call on the context from its argument vector, against servers whose answers are those of what they carry out; its parts fail only on the grounds the world gives; a refused command sends nothing |
| Route.Collect | hiredis-vip-master/hircluster.c:1371-1404 | the regions of all nodes, refused exactly when a node is no master or a region is impossible |
| Route.Sort | hiredis-vip-master/hiarray.c:157-163 | the regions sorted by start, none lost or added |
| Route.Claim | hiredis-vip-master/hircluster.c:1412-1420 | a region is entered exactly when all its slots were free, and then no other slot changes |
| Route.Fill | hiredis-vip-master/hircluster.c:1409-1421 | the table says of every slot which region owns it; it fails exactly when two regions overlap |
| Route.DisjointAnyOrder | hiredis-vip-master/hircluster.c:1408-1421 | whether regions overlap does not depend on the order they are entered in |
| Route.Context.Update | hiredis-vip-master/hircluster.c:1355-1488 | all or nothing: success exactly for masters with possible and disjoint regions, and then the table is exact and the regions sorted; otherwise table, slots, nodes and version are as before |
| Route.Context.NodeByTable | hiredis-vip-master/hircluster.c:2584-2598 | the owner of the region that covers the slot, null when none does or the slot is out of range |
| Route.FallsClosed | hiredis-vip-master/hircluster.c:2541-2560 | below the first region the search leaves the array exactly when the region count plus one begins with 11 in binary |
| Route.Search | hiredis-vip-master/hircluster.c:2515-2581 | binary search on 32-bit indexes: it leaves the array exactly for an empty array or a slot below the first region with such a count; otherwise it finds the covering region or that there is none |
| Route.Context.NodeBySlot | hiredis-vip-master/hircluster.c:2515-2581 | with that exception binary search and table agree on every slot; the source itself has no caller of this function |
| Async.EveryRunIsFair | hiredis-vip-master/async.c:228-354 | in every run, callbacks calling back included, callbacks run are the oldest issued, each once; the k-th reply goes to the k-th; null replies come only at the end, and a freed context has called everybody back |
| Async.TeardownRunsAll | hiredis-vip-master/async.c:276-322 | freeing runs every pending callback once with a null reply, accepts no command meanwhile, and ends |
| Async.EndingEvents | hiredis-vip-master/async.c:276-353 | a failed read, a failed write, a free, and a disconnect with nothing pending end every open context: it is freed, every pending callback was answered with a null reply, in order, and nothing was issued or received |
| Async.BrokenReadEnds | hiredis-vip-master/async.c:416-493 | so does a connection that breaks behind its replies, once these are handed out |
| Async.FreeingReadEnds | hiredis-vip-master/async.c:472-480 | a callback that frees the context ends it right after its reply, the rest of the read unheard |
| Async.UnaskedErrorEnds | hiredis-vip-master/async.c:443-465 | so does an error reply that nobody asked for |
| Async.ReadToTheEnd | hiredis-vip-master/async.c:416-439 | a read over a connection that holds has handed out all it brought; a disconnect that was waiting with nothing left to write then ends the context, or the assertion stops it |
| Async.ReadTakesPrefix | hiredis-vip-master/async.c:416-493 | a read appends a prefix of what came in to what was received, all of it unless nobody is pending or a callback frees the context |
| Async.QuietEvents | hiredis-vip-master/async.c:541-652 | the other events: a command joins queue and buffer unless the context is closing, a disconnect with callbacks pending is only noted, and what is written leaves the front of the buffer |
| Async.CallbackEffect | hiredis-vip-master/async.c:328-367 | what a callback does to an open context: the commands it issues before it first frees or disconnects join queue and buffer in order, later ones are refused, and both requests are noted for the end |
| Async.ClosedForGood | hiredis-vip-master/async.c:597-598 | after a disconnect or free request no command is accepted any more, from callbacks or from outside, in any continuation |
| Async.AbortsExactly | hiredis-vip-master/async.c:416-493 | whatever the callbacks do, a read runs into an assertion exactly when it gets, no callback freeing the context before, to a reply nobody asked for that is no error, or to the end with callbacks pending, a disconnect requested and nothing left to write |
| Async.RunAborts | hiredis-vip-master/async.c:228-652 | a run dies at an assertion exactly when one of its reads does |
| Async.CivilRunsSurvive | hiredis-vip-master/async.c:228-652 | no run dies in which a disconnect is asked for only with nothing pending, in callbacks and outside, and the server never sends more replies than it was sent commands |
| Async.OrderlyRead | hiredis-vip-master/async.c:416-493 | a read in such order neither dies nor leaves a disconnect waiting for anybody |
| Async.DisconnectAborts | hiredis-vip-master/async.c:416-493 | in closed form for a disconnect that waits: no callback frees the context and either fewer replies than pending arrive with nothing left to write, or an unasked reply that is no error does |
| Async.WaitingDisconnectDies | hiredis-vip-master/async.c:336-346 | a program that sends one command, flushes it and disconnects dies at the next read that brings no reply yet |
| Async.CallbackDisconnectDies | hiredis-vip-master/async.c:358-367 | a callback that disconnects while another waits lets the read that ran it die |
| Async.CleanDisconnect | hiredis-vip-master/async.c:355-367 | when the outstanding replies arrive together, each callback gets its reply and the context goes |
| AsyncContexts.AsyncContext.Command | hiredis-vip-master/async.c:587-652 | a command is queued with its callback, or refused on a closing context |
| AsyncContexts.AsyncContext.Hand | hiredis-vip-master/async.c:250-273 | the oldest callback is taken off and run, and may re-enter the context |
| AsyncContexts.AsyncContext.Teardown | hiredis-vip-master/async.c:276-322 | the drain loop does what the machine says, and ends |
| AsyncContexts.AsyncContext.Drop | hiredis-vip-master/async.c:336-353 | disconnect with and without an error |
| AsyncContexts.AsyncContext.Free | hiredis-vip-master/async.c:328-333 | immediate outside a callback, deferred inside one |
| AsyncContexts.AsyncContext.Disconnect | hiredis-vip-master/async.c:362-367 | immediate only outside a callback and with nothing pending |
| AsyncContexts.AsyncContext.Process | hiredis-vip-master/async.c:416-493 | the reply loop does what the machine says on every list of replies |
| AsyncContexts.AsyncContext.HandleRead | hiredis-vip-master/async.c:520-539 | a readable socket, or one that fails, does what the machine says: Async.EndingEvents and Async.BrokenReadEnds say what that is for a failure |
| AsyncContexts.AsyncContext.HandleWrite | hiredis-vip-master/async.c:541-566 | a writable socket, or one that fails |
| AsyncContexts.AsyncContext.Drive | hiredis-vip-master/async.c:228-652 | any program on the object is a fair run |
| Dicts.NextPower | hiredis-vip-master/dict.c:306-315 | the least power of two from 4 on that holds the size; LONG_MAX beyond |
| Chains.MaskIsMod | hiredis-vip-master/dict.c:328 | masking a hash with size minus one is its remainder, for every power of two |
| Chains.HoldsAdd | hiredis-vip-master/dict.c:142-153 | adding a new key at the head of its bucket adds it to the map and keeps every entry in the bucket its hash selects |
| Chains.HoldsDelete | hiredis-vip-master/dict.c:190-205 | unlinking an entry removes its key from the map and no other |
| Dicts.Dict.Move | hiredis-vip-master/dict.c:112-121 | a node relinked to the head of its new chain leaves all other chains linked as they were |
| Dicts.Dict.Relink | hiredis-vip-master/dict.c:110-122 | the chain is taken apart node by node, each next pointer read before the node moves |
| Dicts.Dict.Rehash | hiredis-vip-master/dict.c:102-125 | relinking every node into a table of any size keeps the map; the loop that stops when no entry is left stops with none left |
| Dicts.Dict.Expand | hiredis-vip-master/dict.c:88-132 | resizing keeps contents and count, gives a power of two of the least size, and refuses exactly to shrink below the count |
| Dicts.Dict.KeyIndex | hiredis-vip-master/dict.c:320-337 | the bucket of a new key in a table with room, -1 exactly when the key is there, with at most 2^31 buckets, the most an int can number |
| Dicts.Dict.ExpandIfNeeded | hiredis-vip-master/dict.c:294-303 | an empty table gets four buckets, a full one twice as many and at least four, any other is left as it is; the contents stay |
| Dicts.Dict.Add | hiredis-vip-master/dict.c:135-154 | adds a new key, refuses a present one |
| Dicts.Dict.Replace | hiredis-vip-master/dict.c:160-179 | sets the value in any case, in place for a present key, and tells whether the key was new |
| Dicts.Unlink | hiredis-vip-master/dict.c:190-208 | the pointer to the node found, from its predecessor or the table, is turned to the node behind; the rest of the chain stays linked |
| Dicts.Dict.Delete | hiredis-vip-master/dict.c:182-210 | removes the key and tells whether it was there; exactly that node leaves its chain |
| Dicts.Dict.Find | hiredis-vip-master/dict.c:243-256 | the node of the key, with the value of the map, null exactly when the key is absent |
| Dicts.Drive | hiredis-vip-master/dict.c:88-256 | any sequence of add, replace, delete and find, through any number of resizes, answers as a finite map does |
| DictIterators.FlatLists | hiredis-vip-master/dict.c:258-286 | the entries in bucket order are every key of the map exactly once, with its value |
| DictIterators.SignedSize | hiredis-vip-master/dict.c:272-273 | a number of buckets past 2^31 compares as a number that is not positive |
| DictIterators.DictIterator.Next | hiredis-vip-master/dict.c:268-286 | the next node of what is still to come, null exactly when nothing is; the pointer behind it is saved; a table of 2^31 buckets or more shows none |
| DictIterators.Visit | hiredis-vip-master/dict.c:277-281 | deleting the node just returned, by the key, leaves the saved pointer at the same rest of the chain |
| DictIterators.Sweep | hiredis-vip-master/dict.c:268-286 | a pass that may delete each node as it is returned still returns every entry exactly once, and deletes exactly the chosen ones, if and only if the table has fewer than 2^31 buckets or nothing to return |
| Quote.CatRepr | hiredis-vip-master/sds.c:740-763 | the quoted form of any bytes is appended |
| Quote.QuotedForm | hiredis-vip-master/sds.c:740-763 | it is printable throughout, one byte for a printable one, two for quotes, backslashes and the five control characters with a letter, four for any other |
| Quote.GetToken | hiredis-vip-master/sds.c:826-903 | the token loop with its three modes, and its error exits |
| Quote.SplitArgs | hiredis-vip-master/sds.c:815-923 | the tokens of a line, or nothing for quotes that are open or not followed by a blank |
| Quote.ReprIsToken | hiredis-vip-master/sds.c:835-869 | a quoted string before a blank or the end is one token, and that token is the string |
| Quote.QuoteRoundTrip | hiredis-vip-master/sds.c:807-808 | any list of byte strings, zero bytes, quotes and backslashes included, quoted and joined by spaces splits back into itself |
| Quote.LineSplits | hiredis-vip-master/sds.c:815-923 | a line of words with any blanks between, each word plain bytes and perhaps a part in single or double quotes with their escapes, splits into what the words mean |
| Quote.BrokenQuote | hiredis-vip-master/sds.c:859-890 | a line with a quote that is not closed, or closed and followed by something other than a blank, is refused |
| Quote.QuoteInjective | hiredis-vip-master/sds.c:807-808 | different lists have different lines |
| AdList.List.AddNodeHead | hiredis-vip-master/adlist.c:80-98 | the new node comes first; prev, next, head, tail and len agree with the sequence of nodes |
| AdList.List.AddNodeTail | hiredis-vip-master/adlist.c:106-124 | the new node comes last, likewise |
| AdList.List.InsertNode | hiredis-vip-master/adlist.c:126-153 | the new node comes right before or after the given one, likewise |
| AdList.List.DelNode | hiredis-vip-master/adlist.c:159-172 | the node leaves the sequence and the others keep their order, likewise |
| AdList.List.Rotate | hiredis-vip-master/adlist.c:326-341 | the last node comes first, likewise; short lists stay |
| AdList.List.Index | hiredis-vip-master/adlist.c:308-324 | the node at the index, counted from the tail for negative ones, null outside |
| AdList.ListIter.Next | hiredis-vip-master/adlist.c:221-232 | the i-th node of the walk in the direction of the iterator, null behind the last, and the iterator moves to place i + 1 |
| AdList.Sweep | hiredis-vip-master/adlist.c:197-232 | iteration from either end that deletes only the node just returned visits every original node once, in order, and keeps exactly the others |
| AdList.Dup | hiredis-vip-master/adlist.c:234-275 | the copy has the duplicated values in order; it fails exactly when a value cannot be duplicated |
| WorkerPool.AlwaysSafe | threadpool/threadpooltask.hpp:26-86 | after every interleaving: live workers equal cur_num, init_num <= cur_num <= max(init_num, max_num), used_num counts the busy ones, tasks leave in submission order, and taken tasks are held or finished |
| WorkerPool.BoundsStay | threadpool/threadpooltask.hpp:26-39 | in every run the bounds are those of the start: at least five workers, or as many as asked for, and the maximum given |
| WorkerPool.SeenIsTheQueue | threadpool/threadpooltask.hpp:44-58 | the queue length a worker acts on is that right after it took its last task |
| WorkerPool.NothingLost | threadpool/threadpooltask.hpp:40-86 | submitted tasks are queued, held by one worker or finished, none lost and none run twice; used_num stays between 0 and cur_num |
| WorkerPool.AdjustsToIdleWorkers | threadpool/threadpooltask.hpp:57-72 | in every reachable state a worker is added or leaves exactly according to how the queue length seen compares with the workers really idle, within the bounds, and at most one at a time |
| WorkerPool.NeverStuck | threadpool/threadpooltask.hpp:40-75 | while a task is queued some worker can take a step |

## Left out

- Replies are values: an array under construction is kept in its task and stored in its parent when complete, where the source links nodes as it goes; ownership and freeing are not modelled.
- Allocation failures, error texts and the out-of-memory exits are not modelled.
- The ASSERT macro, off in the default build (hiredis-vip-master/hiutil.h), is not modelled; plain assert is.
- Reader integers are mathematical; overflow of long long and of 32-bit lengths is not modelled, except in the command parser, whose 32-bit wrap-around is.
- The reader's buffer is a sequence; sds capacities and the maximum buffer size are not modelled.
- redisvFormatCommand and other printf-style formatting are not modelled.
- Fragment.DealKeys: a copy that would leave the buffer is reported while the keys are dealt out, where the source makes it in the loop after; what lies behind the buffer is not modelled.
- ClusterCommand.SplitCommandIsTheCommand: for formatted commands; what a server makes of commands in other forms, such as lengths with leading zeros, is not modelled.
- Merge.TakeElements: an array announced with a length below -1 has no elements, where the unsigned count of the source would be huge.
- OneStore.ClusterIsOneStore: what commands other than MGET, DEL and MSET do is a parameter that keeps to the slot they are sent to; a command that stops half way, after which the order is lost, is left to PipelineLoss.
- OneStore.Session: with an unchanged route table, connections that stay up and no redirection, as pipelining itself follows none.
- Pipeline.Context.Receive: a connection with nothing to come is taken to fail, where the source waits until its time-out; when a connection fails is told by a parameter.
- PipelineReset.Reset: whether an error is pending and whether the request list exists are parameters; the update of the route table at the end is Route.Context.Update.
- Decimal.HiAtoi: an int that overflows is taken to wrap, as compilers have it; the C standard leaves it open.
- RedirectMeaning.Perform: what it says of replies is for MGET, DEL and MSET, the commands that are split.
- RedirectMeaning.AtMostOnce: a node that answers with a redirection, TRYAGAIN, CROSSSLOT or CLUSTERDOWN is taken not to have carried the command out, as the cluster specification has it.
- Redirect.Context.Execute: the target of an ASK reply and the new table after MOVED are given by the environment; parsing their text is not modelled.
- Route.Context.Update: starts from the list of regions per node; parsing the CLUSTER NODES and CLUSTER SLOTS replies and mapping slaves to masters are not modelled.
- Route.Sort: insertion sort stands for qsort, whose result on distinct starts is the same.
- Async.EveryRunIsFair: regular commands only; publish/subscribe, monitor mode and connection set-up are not modelled.
- Dicts.Dict.Add: for tables that stay within 2^31 buckets, past which the source's bucket number, an int, can be negative; freeing nodes is not modelled.
- Quote.SplitArgs: isspace and isprint are those of the C locale.
- AdList.List.DelNode: the position of the node is a ghost argument; values are never changed by the list.
- WorkerPool.AlwaysSafe: between init and stop; the destructor and the condition variable's wake-ups are not modelled.
- The rest of sds.c (growing, ranges, splitting by separator, number printing), hiarray.c beyond sorting, and cluster asynchronous commands would add members of an easier kind.
- net.c, adapters, the programs in src, indexer*, mysqlpool, redispool*, objectpool and the other thread pools are input and output or have little logic to state.
