# The JavaScript host of hd-lang: exact arithmetic, journals, queues and codecs

The host runs compiled guests and owns everything they cannot do themselves. Some of it has guarantees that no single
function shows: numbers that print short and read back, journals that survive damage and can be split and joined, a
REPL session that comes back to the same state from any snapshot, reads that can be aborted without losing a byte. This
project models that part of the host and proves those guarantees for every input, every run and every interleaving of
steps.

`dafny verify dfyconfig.toml` checks all modules.

## How the model is laid out

Code that changes things step by step keeps that form: the recorder, replayer, session, stream, standard input, writer,
shrinker state, encoder, decoder and operation table are classes whose methods are proved against functions of the old
state, and loops are loops. Where a class has ghost fields, they hold what the program has seen so far (bytes received,
events recorded, calls made), and `Valid` ties them to the real fields. The functions are then the subject of the
lemmas.

- **Float text.** `Powers` and `Rationals` have powers and exact fractions. `FloatDigits` is the digit generator of Burger and Dybvig
  on integers; the estimate of the exponent is an arbitrary integer, since the two repair loops mend any start.
  `FloatClosest` says when the shortest digits are also the closest of their length. `FloatReader` is the exact reader.
  `FloatText` shows that the two agree on where the interval ends, and `FloatLayout` has the printed forms, the grammar,
  the fixed-point form and the way from number to text and back.
- **Journal.** `ByteStrings` and `Crc` are the lowest layer, `JournalRows` the frames, `JournalEvents` the payloads with
  the method table, `JournalRecorder` the recorder under its cap, `JournalRecord` the grouping into inputs,
  `JournalJoin` and `JournalArchive` the join, and `JournalReplay` the replayer together with the call sites that use it.
- **Session.** `ReplSession` has the checkpoints, archives, cancelled inputs and restores of a session, and
  `ReplRebuild` the rebuilding of a history in a changed program. The guest is a deterministic function from its state
  and an answer to its next request or end. `LinkedStorage` has the storage that the inputs share, its snapshot and its
  restoration, and `ReplStorage` shows that a session over it meets what `ReplSession` asks of an engine.
- **Reservations.** `Reservations` has the partition of received bytes into queued, reserved and delivered ones, with
  the lemmas that each kind of step keeps it. `NetInbox` and `StdinQueue` are the two users, and `StdinOrder` is about
  the order inside one read.
- **Codecs.** `WireCodec` (combinators over a growing buffer), `PackageContract` (the canonical contract decoder) and
  `PrivateValues` (the stack-driven private encoding over finite object graphs). `ContractTypes`, `ContractInterfaces`
  and `ContractRules` say what a contract is in the program's own terms, its types, bytes and rules, and `ContractText`
  what its texts are.
- **Shrinker, output, operations.** `Shrinker`, `Output` and `Operations`. `Options` has the type of a value that may be
  missing, which most modules share.

## What turned out otherwise than written

- The comment at `host/float.ts:96-97` has its two cases the wrong way round. The code leaves the high end strictly
  below the power of ten when the ends are inside the interval, and at most equal to it when they are outside. The model
  follows the code.
- The shortest digits are the closest decimal of their length for every binary32 and binary64 number, but not for every
  significand and exponent. `FloatClosest.ClosestExactly` has the exact condition and `FloatClosest.ClosestCanFail` a
  value for which it fails.
- Two methods can share one interning key when a module name holds a NUL. `JournalEvents.UnchangedExactly`,
  `JournalRecorder.RecordDecodes` and `JournalArchive.JoinedInputs` say that this is the only way for decoding to differ
  from what was recorded.
- An exit status is stored in one byte. A run that ends with a status above 255 or below 0 is recorded, but its replay is refused:
  `JournalReplay.RecordReplays` and `ReplSession.RebuildsHistory` hold exactly for statuses that fit, and
  `JournalReplay.StatusCanFail` has runs that do not.
- Standard input keeps every byte in one place, but not the order inside one read: `StdinOrder.OrderCanFail` has the
  run. Only an abort can lose it (`StdinOrder.RunKeepsOrder`), and `StdinOrder.AbortExactly` says when it does.

## Model

| member | source | states |
|---|---|---|
| FloatDigits.IntervalMeaning | host/float.ts:31-45 | for every significand of at least 1, the four integers of the interval are the value, its upper end and its lower end as exact fractions: half the gap to each neighbour, and half as wide below when the significand is the smallest of its binade |
| FloatDigits.Digits | host/float.ts:91-143 | from any starting estimate of k, the digit loop ends with the least exponent k whose power of ten reaches the high end, with digits that start with no zero, lie inside the interval (ends included exactly for an even significand), that no shorter decimal matches, and that are the closest on their own grid with ties to the even digit |
| FloatDigits.WriteDigits | host/float.ts:119-142 | the generation loop, entered with any exact remainder and ends at the right scale, ends with the shortest closest digits |
| FloatClosest.ClosestExactly | host/float.ts:85-143 | the shortest digits are the closest to the value of all decimals of at most their length inside the interval, at any scale, unless and only unless 9 times 10^(k-2) is inside too and the value is below 9.5 times 10^(k-2) |
| FloatClosest.ClosestForFloats | host/float.ts:47-50 | for every binary32 and binary64 value, subnormals included, the shortest digits are the closest inside decimal of at most their length |
| FloatClosest.ClosestCanFail | host/float.ts:91-143 | outside those widths closeness can fail: a value of 8 with a wide enough interval is written as 1 times ten although the one-digit 8 is exact |
| FloatReader.RoundQuotient | host/float.ts:272-296 | for every positive fraction, the scaled division with a sticky remainder gives the binary64 nearest to it with ties to even, over normals, subnormals, zero and overflow |
| FloatReader.ParseExact | host/float.ts:254-297 | for every digit string without a leading zero and every exponent, the result is the binary64 nearest to the decimal with ties to the even significand (section 4.3.1 of IEEE 754-2019), both early cut-offs included |
| FloatReader.LargeOverflows | host/float.ts:255-259 | the upper cut-off is sound: every decimal it catches is at or above the overflow threshold |
| FloatReader.SmallVanishes | host/float.ts:260-262 | the lower cut-off is sound: every decimal it catches rounds to zero |
| FloatText.RoundedUnique | host/float.ts:252-297 | no fraction has two correctly rounded results |
| FloatText.InsideExactly | host/float.ts:85-90 | for every finite binary64, the decimals inside the interval that the writer uses are exactly the decimals that the reader rounds to that value |
| FloatLayout.MatchComplete | host/float.ts:223-226 | the grammar takes apart every well-formed number text into the parts it was built from |
| FloatLayout.MatchSound | host/float.ts:223-226 | a text that the grammar accepts is written from the parts that come out, and nothing is left over |
| FloatLayout.LayoutDenotes | host/float.ts:179-191 | each of the four layouts of a digit string is in the grammar and denotes the same number as the digits and the exponent |
| FloatLayout.LayoutFormed | host/float.ts:179-191 | for digits without a zero at either end the text has an exponent part exactly outside [-6, 21), no spare zero at either end, and a signed exponent without leading zeros |
| FloatLayout.FormedOne | host/float.ts:176-191 | two texts of that form that denote the same number are the same text |
| FloatLayout.PowerMeans | host/float.ts:226-243 | digits are an exponent alone, after a plus or after a minus, which alone makes it negative |
| FloatLayout.PowersAre | host/float.ts:226-243 | nothing else is an exponent |
| FloatLayout.ValueMeans | host/float.ts:226-243 | a matched text denotes its whole part and its fraction, each read as a number, times its power of ten |
| FloatLayout.Parse | host/float.ts:234-246 | reading succeeds exactly on the texts of the grammar, and then gives the correctly rounded value of the text |
| FloatLayout.NumberOf | host/float.ts:228-243 | the quick path: the built-in conversion that it calls, taken to be ECMA-262 rounding, agrees with correct rounding on every nonnegative fraction |
| FloatLayout.Shortest | host/float.ts:147-173 | NaN, infinities and zeros have their own texts; any other value is printed as its sign and the one text of its shortest closest digits: from 10^-6 to below 10^21 with a point, digits on both sides of it, no spare zero before and none after it beyond that of .0, and elsewhere with one digit before the point and a signed exponent |
| FloatLayout.PrintsExponent | host/float.ts:176-191 | a printed text holds an e if and only if its number is below 10^-6 or not below 10^21 |
| FloatLayout.ShortestOne | host/float.ts:91-143 | a value has one digit string and exponent that are shortest, closest and even on a tie |
| FloatLayout.PrintsOne | host/float.ts:147-191 | a value has one printed text: any two that meet the description are the same |
| FloatLayout.ShortestReadsBack | host/float.ts:146-191 | any text that denotes the shortest digits of a finite binary64 can only be read as that value |
| FloatLayout.PrintThenRead | host/float.ts:146-246 | printing a finite positive binary64 from any estimate and reading the text gives the same significand and exponent |
| FloatLayout.ShorterReadsElse | host/float.ts:85-143 | no decimal with fewer digits reads back as the value |
| FloatLayout.FixedUnits | host/float.ts:205-217 | the scaled integer is the value in units of the last place, rounded half to even |
| FloatLayout.Fixed | host/float.ts:194-221 | NaN and infinities have their own texts; any other is written with exactly the asked number of places and no spare leading zero, and its digits are the value rounded half to even |
| FloatLayout.SplitsFloats | host/float.ts:55-83 | the bits of every finite nonzero number split into a significand and exponent of the canonical form |
| FloatLayout.NextBits | host/float.ts:55-83 | zero has no bit set, the bits plus one are the next float up (one more unit, or the first significand of the next binade), and the bit above the exponent is the sign |
| FloatLayout.SplitInjective | host/float.ts:55-83 | two bit patterns of one width with the same sign, significand and exponent are equal |
| Crc.Table | host/journal.ts:262-268 | each of the 256 entries is eight division steps of its index, by the polynomial of PolyTerms |
| Crc.Crc32 | host/journal.ts:271-277 | the table-driven loop gives the bit-serial checksum of the bytes, whose polynomial, start and complement PolyTerms and CheckValue fix |
| Crc.PolyTerms | host/journal.ts:262-268 | the bits of the polynomial are exactly the terms of the CRC-32 generator below x^32 (section 3.2.9 of IEEE 802.3) |
| Crc.CheckValue | host/journal.ts:271-277 | the checksum of the text 123456789 is cbf43926 in hexadecimal, the check value of CRC-32 |
| Crc.BurstDetected | host/journal.ts:271-277 | two strings that differ only within at most four consecutive bytes never have the same checksum |
| ByteStrings.ReadsUleb | host/journal.ts:376-390 | the bounded reader undoes the unsigned LEB128 of every number below 2^64 and stops right after it |
| JournalRows.ReadRowsLoop | host/journal.ts:444-471 | the reading loop gives the rows and valid length of the recursive reading |
| JournalRows.ReadsRow | host/journal.ts:358-365 | a written row anywhere in any bytes reads back as its kind, index and payload and ends where it was written to |
| JournalRows.RowHasReads | host/journal.ts:444-471 | a row that is read has a known kind, its own position as its number, its whole payload, and the checksum of everything before it |
| JournalRows.PrefixReads | host/journal.ts:442-471 | every byte prefix of a written journal reads as exactly the rows that lie wholly inside it, with their total length as the valid length |
| JournalRows.RereadValid | host/journal.ts:442-471 | for any bytes at all, reading the valid prefix again gives the same rows and the same length |
| JournalRows.DamageDetected | host/journal.ts:442-471 | a journal with up to four consecutive changed bytes in the payload of row j reads as exactly the rows before row j |
| JournalEvents.ReadsReply | host/journal.ts:530-594 | every reply, of each value type and with or without a result, reads back and stops right after itself |
| JournalEvents.ReadsRequest | host/journal.ts:598-605 | a request reads back, whole up to eight bytes and as length and digest beyond |
| JournalEvents.ReadsHandleList | host/journal.ts:425-439 | a list of 32-bit handles reads back |
| JournalEvents.DecodesCall | host/journal.ts:607-632 | a call row decodes to the call and to the grown method table, whether the method is new or known |
| JournalEvents.DecodesEvent | host/journal.ts:655-690 | each of the nine kinds of row decodes to its event |
| JournalEvents.DecodedIs | host/journal.ts:607-690 | a payload decodes only to an event of the kind of its row, only a call adds a method and only its own, and an end decodes only from the bytes written for it |
| JournalEvents.JournalDecodes | host/journal.ts:694-706 | the journal of any event sequence whose parts fit their widths is valid to its last byte and decodes to those events, up to method names that share a key |
| JournalEvents.UnchangedExactly | host/journal.ts:771-784 | decoding gives back the very events if and only if no two different methods share a key |
| JournalEvents.KeysTellNames | host/journal.ts:771-784 | methods whose names hold no NUL never share a key |
| JournalEvents.NamesCanClash | host/journal.ts:771-784 | with NUL in a name two methods can share a key, and the second is then decoded as the first |
| JournalRecorder.PutMethod | host/journal.ts:771-784 | the interning map writes the number of a known method and the number and names of a new one, and stays in step with the table that a decoder builds |
| JournalRecorder.PutRequest | host/journal.ts:785-790 | writes the length, then the arguments themselves when they are at most eight bytes, else the low 64 bits of the hash of the tagged arguments: the bytes of the reduced request |
| JournalRecorder.RequestsTell | host/journal.ts:474-485 | two argument strings have the same reduced request if and only if they are equal, or both are longer than eight bytes, of one length, and the low 64 bits of their tagged hashes agree |
| JournalRecorder.UlebLen | host/journal.ts:331-337 | the counted length is the length of the LEB128 |
| JournalRecorder.Recorder.constructor | host/journal.ts:725-736 | a new recorder holds the header row, or is off when the header does not fit the cap |
| JournalRecorder.Recorder.Push | host/journal.ts:862-875 | an event is appended exactly when the journal with it stays within the cap; otherwise nothing is written and recording is off for good |
| JournalRecorder.Recorder.TakeJournal | host/journal.ts:738-740 | gives the journal of the events so far, or nothing once recording is off |
| JournalRecorder.Recorder.SetCap | host/journal.ts:744-746 | a new cap leaves every row that is recorded in place; later rows meet it |
| JournalRecorder.Recorder.TakeNotice | host/journal.ts:747-753 | is true at most once in the life of a recorder, and only after recording went off |
| JournalRecorder.Recorder.Call | host/journal.ts:756-793 | records the call with its reduced request and wrapped reply, or turns recording off |
| JournalRecorder.Recorder.Finish | host/journal.ts:794-801 | records the finish with its wrapped reply, or turns recording off |
| JournalRecorder.Recorder.Block | host/journal.ts:802-808 | records the handles of a block, or turns recording off |
| JournalRecorder.Recorder.Abort | host/journal.ts:809-815 | records the aborted handle, or turns recording off |
| JournalRecorder.Recorder.Poll | host/journal.ts:816-818 | counts one poll |
| JournalRecorder.Recorder.Wake | host/journal.ts:819-826 | records the handles at the current poll count, or turns recording off |
| JournalRecorder.Recorder.Cancel | host/journal.ts:827-833 | records the current poll count, or turns recording off |
| JournalRecorder.Recorder.Input | host/journal.ts:836-845 | records the number and the two digests of an input and starts its poll count at zero |
| JournalRecorder.Recorder.End | host/journal.ts:846-855 | records the end with the exit status that one byte holds, or turns recording off |
| JournalRecorder.RecordDecodes | host/journal.ts:707-876 | after any run of calls under the cap, the journal decodes to the events that were recorded, in order and all of them, if and only if no two methods share a key |
| JournalRecord.Recorded | host/journal.ts:928-958 | the reader of whole journals gives the grouped inputs, or the first failure in the order of the code |
| JournalRecord.GroupExactly | host/journal.ts:928-958 | grouping succeeds with given inputs if and only if writing those inputs out gives the events and every row lies within its input |
| JournalJoin.ArchivedCall | host/journal.ts:960-985 | a copied call is the payload of that call under the new numbering |
| JournalJoin.Joiner.Add | host/journal.ts:1010-1027 | a row is added, skipped or refused exactly as the item list says |
| JournalJoin.Joiner.AddRows | host/journal.ts:1005-1028 | adding rows one after another is adding the list of them, up to the first refusal |
| JournalJoin.JoinJournals | host/journal.ts:990-1034 | the join of the chunks is the journal of the renumbered items, or the first failure |
| JournalJoin.JoinsWhole | host/journal.ts:1000-1034 | journals are joined only if each reads to its last byte, all are of one execution and every input in them ended |
| JournalArchive.JoinedDecodes | host/journal.ts:960-1034 | although rows and methods are renumbered, a joined journal is valid to its last byte and decodes to the events of its items, up to names that share a key |
| JournalArchive.JoinedInputs | host/journal.ts:928-1034 | reading the join gives the execution of the first chunk and the inputs of all chunks in order, without header rows inside an input, if and only if no two methods share a key across the chunks |
| JournalArchive.AddsInOrder | host/journal.ts:1013-1022 | rows are accepted if and only if the input numbers go on increasing |
| JournalArchive.SplitAnywhere | host/journal.ts:987-1034 | the inputs of a session read back the same from the join of any split of them into archives as from one journal |
| JournalReplay.Replay.Call | host/journal.ts:1060-1075 | when the next row is a recorded call of this method, its reply is served if and only if the arguments are the recorded ones or collide with them in length and digest; otherwise the replay diverges with its reason, and the first reason stays |
| JournalReplay.KeptReply | host/journal.ts:530-544 | the reply that a journal keeps is written as the same bytes as the host gave, with the same result |
| JournalReplay.ArgumentsTell | host/journal.ts:487-497 | over every argument string that a row may have been recorded with: a call fits the row exactly when its arguments are those or collide with them |
| JournalReplay.Replay.Finish | host/journal.ts:1076-1083 | serves exactly a recorded finish of this handle |
| JournalReplay.Replay.Block | host/journal.ts:1086-1096 | serves exactly a recorded block, and nothing at the end of the recording |
| JournalReplay.Replay.Abort | host/journal.ts:1097-1104 | accepts exactly a recorded abort of this handle |
| JournalReplay.Replay.Wake | host/journal.ts:1113-1120 | serves exactly a wake recorded at the current poll count |
| JournalReplay.Replay.End | host/journal.ts:1123-1136 | accepts the end exactly when every row was used, nothing diverged and the ends are alike; otherwise says which of these failed, with the end and the row or the recorded end |
| JournalReplay.Replay.Diverge | host/journal.ts:1142-1145 | only the first divergence is kept |
| JournalReplay.LiveServes | host/journal.ts:1046-1146 | serving a deterministic guest from the rows of any live run that ended by itself takes the guest to the same end and state and uses every row |
| JournalReplay.ServedLives | host/journal.ts:1046-1146 | a guest that gets through all rows has a live run, with answers that are constructed, that records exactly those rows |
| JournalReplay.ReplayExactly | host/journal.ts:1046-1146 | a replay is accepted with an end if and only if some live run of the guest records exactly these rows and comes to that end by itself |
| JournalReplay.RecordReplays | host/journal.ts:846-855 | what was recorded of a live run replays if and only if the exit status fits the byte it is stored in |
| JournalReplay.StatusCanFail | host/journal.ts:846-855 | runs that end with status 256 or -1 are recorded as ending with 0 or 255, and their replay diverges |
| JournalReplay.Site | host/session.ts:236-307 | one host call under replay: serves from the next row, records that row again, and refuses exactly where the trace says so |
| JournalReplay.WaitSite | host/session.ts:160-176 | one poll at a wait: counts it on both sides, and serves a wake recorded at this count |
| JournalReplay.DriveReplay | host/core.ts:1352-1372 | driving a whole input follows the trace function to its end or divergence, and what is recorded on the way is the rows that were served |
| JournalReplay.ReplayInput | host/session.ts:350-419 | an input is accepted exactly when its rows and end fit, and the rows recorded meanwhile are its start, the same events and its end |
| ReplSession.PastReplays | host/session.ts:402-419 | a past input served from its own rows reaches the state of running all inputs from scratch, and is accepted if and only if its exit status fits its byte |
| ReplSession.ScratchLeaves | host/session.ts:350-382 | running from scratch leaves what the last live run left, untouched after status 0 and reset after any other end |
| ReplSession.Rebuild | host/session.ts:559-566 | the loop over the inputs after a checkpoint is the recursive rebuilding, rows recorded again included |
| ReplSession.RebuildsHistory | host/session.ts:536-579 | a snapshot taken at any point and the replay of the inputs after it give the state of running every committed input from scratch, with the journal rows written again unchanged, if and only if the exit statuses after the snapshot fit their bytes |
| ReplSession.ScratchReopens | host/session.ts:546-558 | for an engine that keeps its laws, the snapshot of the storage from scratch, restored over new instances of its modules, is that storage, and holds one instance an input |
| LinkedStorage.CaptureRestores | host/session.ts:459-534 | the three memories, the session globals and the table length of a snapshot, laid over newly instantiated modules, give back the whole captured storage, although data segments rewrote the memories and the table was grown at once |
| LinkedStorage.InstantiatingKeeps | host/session.ts:484-534 | instantiating one more module over live instances leaves exports and table as the modules make them and memories that only grew |
| LinkedStorage.TouchKeeps | host/session.ts:459-479 | code that changes memories and session globals only leaves storage that a snapshot can restore |
| LinkedStorage.ReopensAfresh | host/session.ts:484-534 | new instances over no saved memories are the modules instantiated one after another: same memories, exports and table |
| LinkedStorage.FilledLast | host/session.ts:494-533 | a table slot holds what an element segment put there last |
| LinkedStorage.FilledElsewhere | host/session.ts:494-533 | a table slot that no element segment writes keeps what it held |
| ReplStorage.StorageLawful | host/session.ts:459-579 | for any modules whose code changes nothing but memories and session globals, the engine with the snapshots of the source keeps the laws that the session theorems ask for |
| ReplSession.Session.constructor | host/session.ts:581-609 | a new session has no history and its state is the empty storage |
| ReplSession.Session.RestoreLinked | host/session.ts:536-579 | after a cancelled input the session comes back, from its snapshot and the replay of later inputs, to the state of its committed inputs, exactly when those inputs replay; otherwise nothing of it has changed |
| ReplSession.Session.RunLinkedInput | host/session.ts:632-662 | an input is refused exactly for a stale state or a history that does not replay; otherwise it starts in the state of running all committed inputs from scratch, wherever checkpoints fell, joins the history exactly when it was not stopped, and leaves its storage as it is after status 0 and reset after any other end |
| ReplSession.Session.RunExtended | host/session.ts:632-662 | the part after the restore: the run from the current state, with the storage kept exactly after status 0 and reset otherwise; its checkpoint and its archive keep every invariant of the session |
| ReplSession.Session.Archive | host/session.ts:654-661 | archiving moves the rows since the last checkpoint into the archives and takes the snapshot, and leaves history and state alone |
| ReplSession.Session.HistoryJournal | host/session.ts:702-708 | the history journal is the active one alone or the join of all archives and the active one, and it reads as the execution and all inputs run so far in order |
| ReplSession.HistoryReads | host/session.ts:700-708 | however the session was split into archives, its history journal reads as the execution and all inputs run so far in order, a cancelled last one included |
| ReplRebuild.ReplayHistory | host/session.ts:740-766 | the rebuilding keeps the longest prefix of the inputs that repeats, without the skipped ones, and stops at the first that does not |
| ReplRebuild.UnskippedMeans | host/session.ts:740-780 | the kept inputs are exactly those that no stop or cancel ended |
| ReplRebuild.RepeatKept | host/session.ts:768-780 | the second pass succeeds exactly when every kept input repeats in order |
| ReplRebuild.RunHistory | host/session.ts:850-867 | the kept inputs always repeat in the second pass, the dropped numbers are those of all inputs from the first that does not repeat, and the next input runs over exactly the state that the kept ones leave, unless a dropped input is still in the program |
| ReplRebuild.RepeatExactly | host/session.ts:402-419 | an input repeats in a new program if and only if a live run of it there would record the same rows and end |
| ReplRebuild.RepeatLeaves | host/session.ts:350-382 | a repeated input leaves what any live run with its record leaves, untouched after status 0 and reset after any other end |
| NetInbox.Stream.Push | host/net.ts:191-194 | a received chunk joins the end of the queue under the next order number |
| NetInbox.Stream.Restore | host/net.ts:195-204 | a piece goes back at the one place where the queue stays sorted |
| NetInbox.Stream.Close | host/net.ts:205-208 | the first end of the stream stays |
| NetInbox.Stream.Next | host/net.ts:218-260 | a read takes the front piece, or the end when nothing is queued, or keeps waiting |
| NetInbox.Stream.TimeOut | host/net.ts:223-246 | a read that has taken nothing ends as timed out and holds no byte |
| NetInbox.Stream.WaitStart | host/net.ts:326-359 | a read gets an operation number that was never used; a read of nothing is ready at once |
| NetInbox.Stream.Trim | host/net.ts:547-583 | a read of n bytes keeps the first n of its piece and the rest goes back in order, with every byte still in one place |
| NetInbox.Stream.Settle | host/net.ts:547-583 | a read that took a piece becomes ready with it, or puts it back when it was aborted meanwhile |
| NetInbox.Stream.Poll | host/net.ts:360-371 | the result of a known read, and an error for an unknown one; data is exactly the bytes that the read reserves |
| NetInbox.Stream.Finish | host/net.ts:372-386 | exactly a ready read finishes, and what it held, which is its result, is what is delivered |
| NetInbox.Stream.Abort | host/net.ts:387-395 | the read is gone and every byte is still in one place: what a ready read held is in the queue, what a running one took is still on its way back |
| NetInbox.QueueIncreases | host/net.ts:195-204 | after any run of steps, the queued pieces are strictly increasing by order and offset |
| NetInbox.AbortsRestore | host/net.ts:325-395 | once no read is left, the queue holds in order exactly the received bytes that were not delivered |
| Reservations.Reserves | host/net.ts:218-225 | moving the front of the queue to a read keeps each received byte in exactly one place |
| Reservations.Restores | host/net.ts:284-288 | moving a reserved piece back to its sorted place keeps each byte in exactly one place and the queue sorted |
| Reservations.FlattensInOrder | host/net.ts:195-204 | the bytes of a sorted queue are the received bytes that are queued, in the order they arrived |
| Reservations.UntakenInOrder | host/net.ts:195-204 | when no read holds anything, every byte is queued or delivered, and the queued ones are in order |
| StdinQueue.Stdin.Serve | host/input.ts:52-79 | the pending reads have their turns in the order they started, each over the queue that the one before left; a read that has its result is left alone, and after an error or the end none is left waiting |
| StdinQueue.Stdin.ServeRead | host/input.ts:38-72 | a line read takes exactly the queued bytes up to and over the first newline and leaves the rest, and its text is all its bytes without that newline and one carriage return before it; without a newline, and for a whole text, everything queued is taken; each byte stays in one place |
| StdinQueue.TakenBytes | host/input.ts:53-67 | what a read takes, over any number of queued pieces, is a prefix of the queued bytes: for a line the one that ends with the first newline, otherwise all of them |
| StdinQueue.ServesTurn | host/input.ts:52-73 | one serve of a pending read is such a turn, for every state of the queue |
| StdinQueue.NewlinesReplace | host/input.ts:48-50 | wherever a carriage return and a newline meet, one newline stands in the result, whatever is around them |
| StdinQueue.NewlinesKeep | host/input.ts:48-50 | a text without that pair stays as it is |
| StdinQueue.Stdin.Data | host/input.ts:100-104 | arrived bytes are queued behind all earlier ones and served, and each byte stays in one place |
| StdinQueue.Stdin.End | host/input.ts:105-108 | at the end every pending read gets its result |
| StdinQueue.Stdin.Fail | host/input.ts:109-112 | after an error every pending read gets the error |
| StdinQueue.Stdin.WaitStart | host/input.ts:123-129 | a read gets a new operation number and is served at once |
| StdinQueue.Stdin.WaitFinish | host/input.ts:137-144 | exactly a read with a result finishes, and its parts are what is delivered |
| StdinQueue.Stdin.WaitAbort | host/input.ts:145-154 | the parts of the read go back sorted by offset and are served to the reads that wait |
| StdinQueue.AbortsRestore | host/input.ts:123-157 | once no read is left, the queue holds in order exactly the received bytes that were not delivered |
| StdinOrder.OrderCanFail | host/input.ts:52-79 | a run of two reads, two arrivals and an abort, from the start of the worker, after which the program gets the third byte first |
| StdinOrder.OrderExactly | host/input.ts:58-67 | a read that holds its bytes in order still does after it takes more if and only if the queue does not start with bytes from before the ones it holds |
| StdinOrder.ServesInOrder | host/input.ts:52-73 | serving any list of reads keeps all their bytes in order if and only if at each pending turn the queue follows what that read holds |
| StdinOrder.AbortExactly | host/input.ts:145-154 | in every state of the worker, an abort keeps the order in all reads if and only if the bytes put back follow what each pending read holds at its turn |
| StdinOrder.RunKeepsOrder | host/input.ts:123-154 | in every run without an abort each read has its bytes in the order they arrived |
| StdinOrder.StaysSettled | host/input.ts:52-79 | in every run a read waits only when nothing is queued |
| WireCodec.LebReads | host/wire.ts:114-127 | the unbounded reader undoes the unsigned LEB128 of every number (section 7.6 of DWARF 5) |
| WireCodec.ZigZagBack | host/wire.ts:78-81 | the zigzag mapping is undone for every integer |
| WireCodec.ZigZagOrder | host/wire.ts:78-81 | zigzag numbers every integer once, in the order of magnitudes, each negative just before its opposite |
| WireCodec.Decodes | host/wire.ts:157-292 | for every codec built from the combinators and every value of its type, written anywhere in any bytes, decoding gives the value and stops right after it |
| WireCodec.RoundTrip | host/wire.ts:157-292 | decoding an encoding followed by any bytes gives the value and leaves exactly those bytes |
| WireCodec.PrefixFree | host/wire.ts:157-292 | no encoding is the start of the encoding of another value of the codec |
| WireCodec.Enc.Room | host/wire.ts:57-64 | afterwards the room is there, and what was written is unchanged although the buffer may be a new one |
| WireCodec.Enc.Leb | host/wire.ts:65-77 | the loop writes within the ten bytes it reserved and appends the LEB128 of every 64-bit number |
| WireCodec.Enc.Zz | host/wire.ts:78-81 | appends the LEB128 of the zigzag of a signed number |
| WireCodec.Enc.Bytes | host/wire.ts:82-88 | appends the length and the bytes, within the room reserved for them |
| WireCodec.Enc.F64 | host/wire.ts:93-98 | appends the eight bytes of a double, lowest first |
| WireCodec.Enc.Put | host/wire.ts:166-292 | for every codec whose cases and widths fit, the growing buffer ends with exactly the pure encoding of the value appended, and no write lies outside the reserved room |
| WireCodec.Dec.Leb | host/wire.ts:114-127 | the cursor loop reads what the recursive reader reads and moves to the same place |
| PackageContract.CountExact | host/package-contract.ts:143-159 | a count is read as n if and only if the bytes are the shortest LEB128 of n, n is below 2^32 and at least n bytes follow |
| PackageContract.StringExact | host/package-contract.ts:160-169 | a string is read if and only if the bytes are its length and well-formed UTF-8 |
| PackageContract.ReadsWritten | host/package-contract.ts:170-208 | whatever the nested readers accept is of the shape asked for and is written exactly as it was read |
| PackageContract.WrittenReads | host/package-contract.ts:170-208 | every tree of the shape, once written, is read back and the reader stops right after it |
| PackageContract.ContractExact | host/package-contract.ts:125-230 | bytes are accepted as a contract if and only if it has the shape, is valid, and the bytes are the version and its one encoding |
| PackageContract.Canonical | host/package-contract.ts:125-230 | two accepted byte strings that decode to the same contract are identical |
| PackageContract.ContractNests | host/package-contract.ts:173-176 | no accepted contract nests types deeper than the limit of 32 allows |
| PackageContract.NestsWithin | host/package-contract.ts:173-176 | a tree of any shape nests at most as deep as the room its reader leaves |
| PackageContract.Reader.Count | host/package-contract.ts:143-159 | the loop with its early refusals is the recursive reading of a count |
| PackageContract.Reader.String | host/package-contract.ts:160-169 | the cursor reads a string as the pure reader does |
| PackageContract.Reader.Tree | host/package-contract.ts:170-208 | the recursive readers over the shared cursor end on every input and give the tree of the pure reading |
| PackageContract.CheckUnique | host/package-contract.ts:51-56 | a key joins the set unless it is empty or there already |
| PackageContract.CheckFields | host/package-contract.ts:57-63 | the loop that grows a name set and checks each value passes exactly when all names differ and all values are valid |
| PackageContract.CheckValue | host/package-contract.ts:64-89 | the recursive check passes exactly on values whose field and variant names are unique and whose handles have an interface |
| PackageContract.CheckMethods | host/package-contract.ts:107-121 | the loop over the methods passes exactly when names and imports are new, no member is empty and every type is valid |
| PackageContract.ValidateContract | host/package-contract.ts:47-123 | the checks, with sets that grow interface by interface, pass exactly on valid contracts |
| PackageContract.ReadPackageContract | host/package-contract.ts:125-230 | gives a contract exactly when the bytes are accepted, and then that one; refuses only what no contract is written as |
| ContractText.Utf8Exact | host/package-contract.ts:160-169 | the texts that are taken are exactly the UTF-8 encodings of sequences of Unicode scalar values |
| ContractTypes.HasType | host/package-contract.ts:173-208 | every type of the language within the widths and the depth limit is a value that the decoder reads |
| ContractTypes.TypeFrom | host/package-contract.ts:173-208 | every value that the decoder reads is the tree of such a type |
| ContractTypes.WritesType | host/package-contract.ts:173-208 | the tree of a type is written as the tag of the type and the bytes of its parts |
| ContractRules.ChecksType | host/package-contract.ts:57-92 | the checks on a value are that every handle has an interface and that field and case names differ |
| ContractRules.SplitFilled | host/package-contract.ts:40-45 | no part between the dots of a selector is empty exactly when it neither starts nor ends with a dot and has no two in a row |
| ContractRules.SelectsOk | host/package-contract.ts:40-45 | a selector is valid exactly for an interface that is no handle, when it starts with dep. or pkg. and has no empty label |
| ContractRules.RulesExact | host/package-contract.ts:47-123 | the validation passes exactly on interfaces with different identities, modules and selectors whose methods, imports and types keep the rules |
| ContractRules.TypedExact | host/package-contract.ts:125-230 | bytes are accepted if and only if they are the version and the encoding of some interfaces that fit the widths and keep the rules, and then the result is their tree |
| PrivateValues.HexBack | host/package-providers.ts:80-104 | the hexadecimal digits of every number that fits them read back |
| PrivateValues.DecimalBack | host/package-providers.ts:80-104 | the decimal text of every integer, negative ones included, is well formed and reads back |
| PrivateValues.EncodePrivate | host/package-providers.ts:109-149 | the loop over an explicit stack ends on every finite graph and gives the tokens, or the first failure, of the recursive encoding |
| PrivateValues.EncodesExactly | host/package-providers.ts:109-149 | the encoding succeeds if and only if the value reaches no unsupported leaf or object and no cycle; sharing is allowed |
| PrivateValues.DecodeContainer | host/package-providers.ts:180-202 | takes the parts of one container off the stack, or refuses a bad length or a bad or repeated key |
| PrivateValues.ContainerExact | host/package-providers.ts:180-202 | a container is taken exactly when its length is a safe integer, enough values follow, and, for an object, its keys are strings with no two alike |
| PrivateValues.NumberExact | host/package-providers.ts:151-178 | a number token is taken exactly when its text is the one text of a number in the range of its tag: shortest decimal digits, or sixteen hexadecimal digits of a finite float |
| PrivateValues.DecodePrivate | host/package-providers.ts:227-245 | the loop from the last token to the first gives the value that the recursive decoding gives |
| PrivateValues.LeafDecodes | host/package-providers.ts:80-104 | each leaf decodes from its token with its type kept: integer apart from float, every float bit for bit, and exactly the bits from those of infinity up, of either sign, as null |
| PrivateValues.RoundTrip | host/package-providers.ts:109-245 | every encoded graph decodes to the tree that it unfolds to |
| Shrinker.IsSimpler | host/cases.ts:511-521 | the loop decides the shortlex order |
| Shrinker.SimplerOrder | host/cases.ts:510-521 | being simpler is irreflexive, transitive and total |
| Shrinker.Shrinking.TryShrink | host/cases.ts:527-538 | one attempt is spent while budget is left, and the best run changes exactly when the run it made is a simpler failure; the run, not the candidate, becomes the best |
| Shrinker.Shrinking.DeleteDraws | host/cases.ts:540-551 | the best run never gets less simple; if it stays the same with budget left and attempts are deterministic, no deletion of 8, 4, 2 or 1 consecutive draws gives a simpler failure |
| Shrinker.Shrinking.ZeroDraws | host/cases.ts:553-567 | the same for setting 8, 4, 2 or 1 consecutive draws to zero |
| Shrinker.Shrinking.ReduceDraws | host/cases.ts:569-587 | the same for lowering one draw by one |
| Shrinker.Shrinking.ReduceDraw | host/cases.ts:572-585 | the halving search on one draw ends, and without a change lowering that draw by one gives no simpler failure |
| Shrinker.Shrink | host/cases.ts:589-602 | at most the budget is spent; the result is the given run or a simpler one that some attempt made; with budget left no deletion, zeroing or lowering improves it |
| Shrinker.FixedMeans | host/cases.ts:540-588 | of a fixed stream no deletion or zeroing of a block of 8, 4, 2 or 1 draws and no lowering of a draw by one fails with a simpler stream |
| Shrinker.LeastFailing | host/cases.ts:569-602 | where failing is monotone in a draw that is replayed verbatim, the draw in the result is the least failing value |
| Output.Writer.HandOff | host/output.ts:103-115 | the local queue moves to the worker in order, each entry with only its bytes not yet written |
| Output.Writer.Pump | host/output.ts:118-143 | writes local entries until a descriptor is full, then hands off; otherwise the queue is empty and the result is that of all calls |
| Output.Writer.Direct | host/output.ts:146-155 | switches back to direct writing exactly when not pinned and the worker queue is empty |
| Output.Writer.Queue | host/output.ts:156-162 | a call is written at once or handed off behind the earlier ones |
| Output.Writer.Send | host/output.ts:163-169 | a call that nobody waits for is queued behind the earlier ones on whichever side has them |
| Output.Writer.Write | host/output.ts:179-185 | blocks exactly while its bytes are with the worker; otherwise nothing is queued and the result is that of all calls so far |
| Output.Writer.Connection | host/output.ts:186-195 | after sharing the writer stays with the worker |
| Output.Writer.Enqueue | host/output-worker.ts:100-124 | a call joins the end of the worker queue |
| Output.Writer.Settle | host/output-worker.ts:40-58 | finished entries at the front leave the queue and answer the one who waits |
| Output.Writer.WorkerEvent | host/output-worker.ts:55-81 | one write of the worker, short, full, complete or failed, keeps everything in order |
| Output.InCallOrder | host/output.ts:103-185 | after any run of writes and switches, the bytes at each descriptor are the written parts of the calls in call order, each once: all calls before the one at work have ended and none after it has begun |
| Output.AllOut | host/output.ts:103-185 | with the queues empty and no failed call, the bytes out are all bytes of all calls in order |
| Output.WriteIsOut | host/output.ts:1-15 | a write that came back without an error has its last byte out, and every call before it has ended |
| Operations.Host.Pending | host/core.ts:1095-1122 | a pending operation gets a handle that was never used |
| Operations.Sorted | host/core.ts:1134-1137 | the due operations, each once, by their time and then their handle |
| Operations.OrderMeans | host/core.ts:1136-1136 | an earlier place means an earlier time, or the same time and a smaller handle |
| Operations.Probe | host/core.ts:1138-1155 | exactly the operations that are ready are completed and reported in order, the others are put off |
| Operations.Host.Complete | host/core.ts:1133-1157 | reports exactly the uncompleted operations whose probe says so or, without one, whose time has come, by time and then by handle, and puts off those whose probe did not |
| Operations.Host.TakeResult | host/core.ts:1180-1190 | gives a result exactly to the method that started the operation, once it is complete, and ends it |
| Operations.Host.Finish | host/core.ts:1175-1177 | ends the operation |
| Operations.Host.Abort | host/core.ts:527-531 | ends the operation as aborted |
| Operations.Host.Clear | host/core.ts:532-536 | ends all pending operations as aborted |
| Operations.Host.Close | host/core.ts:1501-1512 | every operation ever started has then ended exactly once |
| Operations.LifeCycle | host/core.ts:1092-1190 | in every run each operation is reported at most once, ends at most once, and its result is taken only after its report and only by the method that started it |

## Left out

Weaker than the source, or under a condition:

- JournalArchive.JoinedInputs: for joined journals of at most 2^32 rows whose calls still fit 32-bit lengths under the new numbering; a request longer than 2^53 bytes, whose length loses digits when it becomes a JavaScript number, is not modelled.
- JournalRecorder.RecordDecodes: for journals of at most 2^32 bytes and 32-bit handles, which the host's own buffers and handle tables imply.
- JournalEvents.JournalDecodes: names and results are byte strings; UTF-8 encoding and decoding are not modelled.
- JournalReplay.Site: the conversions between guest memory and requests or replies (`callArgs`, `replyOf`, `servedValue`) are not modelled; the guest is taken to see the reply as it was recorded.
- JournalReplay.Replay.Diverge: the texts of divergence messages are not modelled, only which divergence it is.
- ReplSession.Session.constructor: for a session with a new recorder; taking over a journal that was begun before, and its cap, is not modelled.
- ReplSession.Session.RestoreLinked: instantiating a module that was instantiated before is taken to succeed.
- ReplSession.Session.HistoryJournal: the recorder of a linked session is never off, so there is no empty answer.
- LinkedStorage.CaptureRestores: what segments a module has is not modelled, only that data segments do not grow a memory and element segments lie in the table; code is taken not to write the table itself.
- JournalArchive.SplitAnywhere: for archives within the widths above and without clashing names.
- JournalEvents.DecodesCall: the refusal of names that are not UTF-8 is not modelled.
- ReplSession.Session.RunLinkedInput: a restore reads the active journal, so it is stated for journals within the widths above and without clashing names; the cap of the session's own recorder, 2^53 - 1 bytes, is taken as not reached.
- ReplSession.HistoryReads: under the same widths for the archives and for their join.
- NetInbox.Stream.Push: for chunks that are not empty, as sockets deliver them.
- NetInbox.Stream.Poll: on an open handle; the answer for a closed one is not modelled.
- NetInbox.Stream.Finish: on an open handle.
- NetInbox.Stream.Abort: on an open handle; an undo after the handle was closed restores nothing.
- StdinQueue.Stdin.Serve: pausing and resuming the source is not modelled.
- StdinQueue.Stdin.WaitStart: opening the source is not modelled.
- StdinQueue.Stdin.Data: for chunks that are not empty, as a stream delivers them.
- PrivateValues.RoundTrip: the tokens are the JSON list itself; the JSON text is not modelled.
- FloatLayout.Shortest: on 64 bits the platform's `toExponential` is taken to give the digits that ECMA-262 asks for, those of `digits`.
- FloatLayout.NumberOf: the built-in `Number` and `toExponential` conversions are taken to round as ECMA-262 says; the estimate of the exponent is any integer.
- WireCodec.RoundTrip: strings are their bytes; a newtype is its codec and a tuple a record.
- PackageContract.ReadPackageContract: the check that the argument is a byte array is not modelled.
- Output.Writer.Write: for one producer; a second port, cancelled writes, draining at close and starting the thread are not modelled.
- Output.Writer.Connection: attaching the second port is not modelled.
- Output.Writer.WorkerEvent: cancelled entries are not modelled.
- Operations.Host.Abort: the abort hook is not modelled.
- Operations.Host.Close: closing the package runtime and the platform is not modelled.
- Operations.Host.Complete: hooks are functions of the handle; hooks that throw or that call back into the host are not modelled.

Not modelled:

- The 128-bit hash (`xxh3_128`): an arbitrary function of the bytes.
- Skimming imported types out of a module (`importTypes`): table work with easy claims.
- Sockets, addresses, timers, back-pressure, accepting and writing in `host/net.ts`; only arrival, reading, finishing and aborting are modelled.
- Reloading and activating linked modules in a session (`reloadLinked`, `checkLinkedTexts`, `activateLinked`).
- The run-time codecs, the `handle` codec with its rollback, and binding in `host/package-providers.ts`.
- The property runner and regression files around the shrinker.
- The step driver, cancellation polling and grants in `host/core.ts`, beyond the driving of a replayed input.
- Files, processes, HTTP, the browser host and the test runner.
