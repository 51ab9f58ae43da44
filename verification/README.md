# A verified model of a small Redis server

The repository is a Redis server in C. This project models its logic in Dafny and proves what that logic
keeps. Each part takes the form of the code it models: loops and in-place updates are methods of classes
over arrays, linked nodes and fields, and each is proved against a function on values; the theorems are
about those functions.

- **Hash table** (`Bits`, `Probing`, `Flags`, `Table`, `KHash`, `Scan`): open addressing with triangular
  probing, tombstones and packed two-bit flags. Lookup, insertion, deletion and the in-place kick-out rehash
  refine a map, for an arbitrary hash function.
- **Protocol** (`Decimal`, `Numerals`, `Stream`, `Handler`, `Resp`, `RoundTrip`, `Chunking`, `Overrunning`,
  `Spilling`, `Pipeline`, `WireTexts`, `CommandHandlers`, `Parsers`, `RingBuffers`, `Writer`, `Clients`):
  the writers and the stack-machine parser of the Redis serialization protocol undo each other for any
  pipelined commands whose counts and lengths are in `int` range; exactly which cuts of the input are
  harmless; exactly when the parser passes the end of a chunk, and when a copy passes the end of the
  argument buffer; the ring buffer refines a queue.
- **Snapshot** (`RdbStrings`, `RdbFiles`, `Framing`, `Snapshot`, `RdbBytes`, `SnapshotTrip`,
  `LargeSnapshots`, `Rdb`): which bytes mean what; strings delimit themselves; exactly which stores survive
  a save and a load, and what the others become.
- **Store** (`Store`, `LinkedList`, `Cells`, `Database`, `SetOptions`, `SetWords`, `Expiry`, `CommandLaws`,
  `Reachable`, `StoreCommands`, `Serving`, `Sessions`): the database over the hash table, with list objects
  behind pointers in its entries. Deleting expired entries only when they are met cannot be observed, nor
  can a restart that keeps the store. This is proved for the functions and for the database object, from the
  empty store and across a restart, and from the bytes of a connection on. The key counter is exact in every
  state.
- **Replication** (`Backlogs`, `Handshake`, `HandshakeRuns`, `Replicas`): the backlog is a sliding window
  over the propagated stream; partial resynchronisation serves exactly the replicas inside it; the order of
  the handshake in every run, and that it runs to its end with a master that answers as it should.

The functions that the code is proved against are themselves pinned down by laws that do not mention them:
place value for numerals (`Numerals`), literal bytes and texts (`WireTexts`, `RdbBytes`), commands and
replies (`CommandLaws`), and option lists as a whole (`SetWords`).

Two small modules serve all others: `Wrappers` holds `Option`, and `Seals` the one device by which a large
predicate is carried through a proof as a whole and looked into only where its key is opened.

Where the code does not do what its shape suggests, the model follows the code:

- A bulk payload that arrives in pieces is not resumed: the remaining length is decremented in a local
  variable only. `Overrunning.CutGoesUnnoticedIff` says for which cuts this, or the next item, shows.
- An inline command whose CR is the last byte received makes the parser step one byte past the chunk.
  `Overrunning.OverrunIff` says when.
- Space in the argument buffer is reserved for bulk strings and not for simple lines.
  `Spilling.RunSpillsIff` says when a copy passes its end, `Spilling.StatusLineSpillsIff` for a single line.
- A snapshot counts keys in one byte, counts lists without writing them, rewrites numeric strings in plain
  form, and cannot read a length byte 0xFF. `SnapshotTrip.SnapshotLoads` says what is read of a store of any
  size; records beyond the count are read as sections, so that their keys are lost (`SnapshotTrip.KeysLost`,
  `LargeSnapshots.SamplesLost`) or bytes of them are taken for a table (`SnapshotTrip.LeftoverTable`).
  `LargeSnapshots.SnapshotRoundTripIff` says exactly which stores come back.
- A deadline of zero means that the entry never expires, so that `SET k v EXAT 0` stores it for good
  (`CommandLaws.ZeroIsNever`); `CommandLaws.DeadlineMetIff` says when a deadline is followed.
- LRANGE with a start before the head is empty. `LinkedList.RangeIsBetweenIff` says when this differs from
  the items that lie in the range.
- LPUSH gives a new list the expiration -1 and RPUSH gives it 0; neither ever expires.

## Model

| member | source | states |
|---|---|---|
| `Bits.RoundUp32IsLeastPow2` | src/khash.h:176 | for every request from 1 to 2^31 the shift-and-or chain gives a power of two that is not below the request and below twice it, hence the least one |
| `Bits.RoundUp32OfZero` | src/khash.h:176 | a request for zero buckets wraps round to zero |
| `Flags.ReadsSlot` | src/khash.h:165-167 | the three reading macros test exactly the empty bit, the deleted bit, and either of them, of one two-bit slot |
| `Flags.SetDelWrites` | src/khash.h:171 | setting the deleted bit of one slot changes that slot only |
| `Flags.ClearEmptyWrites` | src/khash.h:169 | clearing the empty bit of one slot changes that slot only |
| `Flags.ClearBothWrites` | src/khash.h:170 | clearing both bits of one slot makes it live and changes no other slot |
| `Flags.SetDelTrue` | src/khash.h:171 | on the packed words in place: the flag sequence changes at one bucket |
| `Flags.SetEmptyFalse` | src/khash.h:169 | on the packed words in place: the flag sequence changes at one bucket |
| `Flags.SetBothFalse` | src/khash.h:170 | on the packed words in place: one bucket becomes live and all others keep their flags |
| `Flags.FreshFlags` | src/khash.h:253-255 | the fill pattern 0xaa marks every bucket empty |
| `Probing.ProbeStep` | src/khash.h:238 | masking the sum of bucket and step moves from one triangular probe to the next |
| `Probing.SameBucket` | src/khash.h:235-240 | two steps examine the same bucket if and only if twice the number of buckets divides their difference, or their sum plus one |
| `Probing.ProbesDistinct` | src/khash.h:235-240 | the first n probes examine n different buckets |
| `Probing.ProbesComplete` | src/khash.h:235-240 | every bucket is examined by one of the first n probes |
| `Probing.FirstReturn` | src/khash.h:239 | the walk is back at its first bucket for the first time at step 2n-1, so the wrap-around exit is taken only after every bucket was examined |
| `Table.MissedMeansAbsent` | src/khash.h:237-241 | a walk that ended at an empty bucket, or went all the way round, without meeting the key proves that the map does not contain it |
| `Table.StoresInsert` | src/khash.h:336-345 | writing a new key into an empty or deleted bucket of its walk stores the enlarged map and keeps all other keys reachable |
| `Table.StoresDelete` | src/khash.h:349-355 | marking a bucket deleted stores the map without its key and keeps all other keys reachable |
| `Table.RehashTake` | src/khash.h:271-276 | an entry taken in hand is in no bucket any more; every other entry still is in exactly one |
| `Table.RehashPlace` | src/khash.h:288-291 | placing the entry in hand in a bucket without an unprocessed entry adds exactly that entry |
| `Table.RehashSwap` | src/khash.h:283-287 | kicking out: the placed entry, the one now in hand and all others together are the same map, and one old bucket fewer is unprocessed |
| `Table.RehashRoom` | src/khash.h:281 | with an entry in hand the new table always has an empty bucket |
| `Table.InsertConsistent` | src/khash.h:336-345 | an insertion keeps the whole table invariant: stored map, counters, load bound, reachability |
| `Table.DeleteConsistent` | src/khash.h:349-355 | a deletion keeps the whole table invariant |
| `KHash.ProbeFor` | src/khash.h:233-240 | the lookup loop stops at the key, at an empty bucket, or after a full round that missed the key |
| `KHash.ProbePast` | src/khash.h:323-330 | the loop stops at the key or at an empty bucket and is never taken all the way round; the site kept is a deleted bucket of the walk |
| `KHash.ProbeForSlot` | src/khash.h:319-334 | the insertion loop returns the bucket of the key or, if it is absent, a free bucket on its walk |
| `KHash.KickOnce` | src/khash.h:278-292 | one turn of the kick-out loop conserves the entries, and shrinks the unprocessed set when it goes on |
| `KHash.KickOut` | src/khash.h:277-293 | the kick-out loop terminates with every entry placed or unprocessed, none lost or doubled |
| `KHash.Rehash` | src/khash.h:269-295 | the in-place rehash leaves no unprocessed bucket and the same map |
| `KHash.Rebuild` | src/khash.h:253-304 | growing, shrinking or keeping the size: the new arrays satisfy the table invariant for the same map, with as many buckets in use as entries |
| `KHash.KHash.Get` | src/khash.h:230-243 | a present key yields its live bucket with its value, an absent key the number of buckets, whatever the hash collisions |
| `KHash.KHash.FindSlot` | src/khash.h:318-335 | a slot always exists: the key's own bucket, or a free one where the key is reachable |
| `KHash.KHash.ResizeTo` | src/khash.h:252-304 | the map is unchanged and the buckets in use equal the size |
| `KHash.KHash.Resize` | src/khash.h:244-306 | a request whose load bound the entries reach changes nothing; any other rehashes into the rounded size; the map is the same |
| `KHash.KHash.LoadBound` | src/khash.h:303-310 | in every reachable table: size, buckets in use, upper bound and number of buckets are ordered so, the last strictly once allocated, and their number is a power of two |
| `KHash.KHash.MakeRoom` | src/khash.h:310-317 | after the resize check the buckets in use are below the bound, the map is the same, and the table grew only when half of it held entries |
| `KHash.KHash.Put` | src/khash.h:307-348 | the key is in the map afterwards, at the returned live bucket; the return code is 0 exactly if it was there before; all other keys keep their values |
| `KHash.KHash.Occupy` | src/khash.h:336-345 | the two writing branches: code 1 for an empty and 2 for a deleted bucket, invariant kept, the map grows by the key |
| `KHash.KHash.SetValue` | src/khash.h:516-521 | assigning a bucket's value changes the map at its key only |
| `KHash.KHash.Assign` | src/database.c:39-67 | put followed by the assignment of the value is a map update |
| `KHash.KHash.Del` | src/khash.h:349-355 | a live bucket's key leaves the map; any other bucket number changes nothing |
| `KHash.SameSize` | src/khash.h:311-312 | asking for one bucket less rehashes into the same number, with room to spare |
| `KHash.NextSize` | src/khash.h:315 | asking for one bucket more doubles the table, or makes the first four buckets |
| `Decimal.StrtolOfShow` | src/resp.c:283-310 | reading a printed number gives the number back and stops at the first byte after it |
| `Numerals.NumberIsMeaning` | src/resp.c:283-310 | the value of digits is the sum of each digit times the power of ten of its place |
| `Numerals.PrintsTheNumeral` | src/resp.c:100-153 | what is printed for a number is the one string of digits without a leading zero that means it, and no other |
| `Numerals.StrtolReads` | src/resp.c:283-310 | blanks, a sign, digits and whatever follows: the digits are read to their end and mean what they mean by place, saturated to 64 bits with the error reported |
| `Numerals.StrtolReadsNothing` | src/resp.c:283-310 | without a digit behind blanks and sign nothing is read |
| `Numerals.Twelve` | src/resp.c:283-310 | literally: the bytes 49 50 are 12, for the printer and for the reader |
| `Decimal.StrtolIgnoresTail` | src/resp.c:283-310 | `strtol` may read past the received bytes; what lies there never changes what the length state does |
| `Resp.StepIsSafe` | src/resp.c:201-369 | every parser state keeps the stack shape (terminal state, open arrays, at most one leaf), stops within the chunk, and lowers a weight when it goes on without consuming; only an inline command ending in CR can pass the end, by one byte |
| `Resp.ParserSound` | src/resp.c:201-218 | the loop terminates on every chunk from every reachable state and keeps the stack shape |
| `Resp.ElementPushLands` | src/resp.c:220-258 | the push for an element is never lost to the depth limit |
| `Resp.LengthPushLands` | src/resp.c:283-326 | the push behind a length line is never lost to the depth limit |
| `Resp.ArrayPushLandsIff` | src/resp.c:358-369 | the push for the next array element is lost if and only if the stack is at the depth limit |
| `Chunking.StepStable` | src/resp.c:220-455 | a parser step that goes on is the same step when more bytes follow |
| `Chunking.GoodCutIff` | src/resp.c:201-369 | from any reachable state, for any bytes: the run can be resumed whatever follows if and only if it waits for more and does not stop inside a non-empty bulk payload or its CRLF |
| `Overrunning.CutGoesUnnoticedIff` | src/client.c:148-160 | from any reachable state, for any bytes, refused and overrunning ones included: reading them and then the rest leaves the same as reading both at once, whatever the rest, if and only if the parser neither passes their end nor stops inside a non-empty bulk payload or its CRLF |
| `Overrunning.OverrunIff` | src/resp.c:400-455 | from any reachable state, for every chunk: the parser passes its end if and only if the last byte is a CR and the bytes before it leave the parser waiting in, or in front of, an inline command |
| `Stream.RunThroughHalt` | src/resp.c:201-218 | a run over a longer text passes through the state in which the run over its prefix came to rest |
| `Stream.ChunksReadAsWhole` | src/client.c:148-160 | chunks cut at good places, with unconsumed bytes kept, leave the same state as the whole text in one read |
| `RoundTrip.CommandsRoundTrip` | src/resp.c:100-369 | any pipelined commands, encoded and parsed in one chunk, are consumed to the last byte, leave the terminal state, and are executed with exactly their arguments |
| `RoundTrip.TextParsed` | src/resp.c:216-369 | a command whose count and lengths are written in any digits that mean them, leading zeros included, is consumed to the last byte and executed with exactly those bytes as its arguments |
| `WireTexts.MessageParsed` | src/resp.c:216-369 | literally: `*2 $4 .. $12 ..` is the command of those 4 and those 12 bytes |
| `WireTexts.NullBulkElement` | src/resp.c:283-330 | an element of length -1 adds an empty argument |
| `WireTexts.NullArrayParsed` | src/resp.c:356-369 | an array of length -1 is the command without arguments |
| `WireTexts.TokensAreWords` | src/resp.c:400-456 | the tokens of an inline line are its words, bare or in either kind of quotes, however many blanks there are around them |
| `WireTexts.InlineParsed` | src/resp.c:400-456 | a line that begins no other element is consumed with its line end and executed as the command of its words |
| `WireTexts.OtherLinesIgnored` | src/resp.c:216-282 | a line that begins with `-` or `:` is read to its end, and no command, reply or state comes of it |
| `Pipeline.HarmlessCutIff` | src/resp.c:201-369 | in a stream of encoded commands a cut is harmless if and only if it is not strictly inside a non-empty payload plus its CRLF |
| `Pipeline.PipelineInChunks` | src/client.c:157-249 | commands sent in any chunks cut only at harmless places are all executed with exactly their arguments, with nothing left over and no copy past the end of the argument buffer |
| `Handler.SplitAppend` | src/command_handler.c:177-202 | splitting the buffer at its ends and one more yields the earlier arguments and the new one |
| `Handler.CommandLogged` | src/command_handler.c:151-227 | the callbacks for an array of bulk strings execute exactly the list of those strings, empty ones included |
| `Handler.CStrIsPrefix` | src/command_handler.c:204-227 | a C string is the part of the bytes up to the first NUL, or all of them |
| `CommandHandlers.CommandHandler.OnEndArray` | src/command_handler.c:177-202 | the splitting loop over the recorded ends executes the command that the ends describe |
| `CommandHandlers.CommandHandler.OnBeginBulk` | src/command_handler.c:204-215 | afterwards the buffer holds its contents and the whole announced argument; it never shrinks and its contents stay |
| `Handshake.EvolvesEnd` | src/command_handler.c:231-242 | the end of a simple string moves the handshake state as the logged reply does, or to the error state, and never otherwise |
| `Spilling.RoundFitsIff` | src/command_handler.c:223-227 | one parser step from a state whose buffer holds what is announced: it copies past the buffer's end if and only if it takes a simple line that does not fit, and leaves the buffer too small if and only if it does that or stops in a payload for which there is no room once more |
| `Spilling.RunSpillsIff` | src/command_handler.c:204-227 | the same for a whole chunk, of any bytes: some copy goes past the buffer's end if and only if the run comes upon such a line |
| `Spilling.TornSpillsIff` | src/resp.c:331-356 | after a payload that arrived in part: exactly when the copy of the next bytes goes past the buffer's end |
| `Spilling.StatusLineSpillsIff` | src/command_handler.c:204-227 | an instance: a status line on its own is copied past the buffer's end if and only if it is longer than the buffer |
| `Parsers.RespParser.PushState` | src/resp.c:187-193 | the array stack with its bound refines the sequence stack |
| `Parsers.RespParser.PopState` | src/resp.c:195-199 | the bottom state is never popped |
| `Parsers.RespParser.ParseInitial` | src/resp.c:220-258 | on the array stack in place: the step of the initial state |
| `Parsers.RespParser.ParseSimple` | src/resp.c:260-281 | on the array stack in place: the step of a simple line, found by a scanning loop |
| `Parsers.RespParser.ParseLength` | src/resp.c:283-326 | on the array stack in place: the step of a length line |
| `Parsers.RespParser.ParseBulkString` | src/resp.c:331-356 | on the array stack in place: the step of a payload, whose remaining length is not stored back |
| `Parsers.RespParser.ParseArray` | src/resp.c:358-369 | on the array stack in place: the step between array elements |
| `Parsers.RespParser.ParseInline` | src/resp.c:400-455 | on the array stack in place: the step of an inline command |
| `Parsers.RespParser.EmitTokens` | src/resp.c:413-452 | the token loop delivers the tokens of the line in order |
| `Parsers.RespParser.ParseLoop` | src/resp.c:201-218 | the loop computes the run of the parser machine over the chunk |
| `Parsers.RespParser.Parse` | src/resp.c:201-218 | from every valid parser: the bytes used, the way the run ends and the new state are those of the machine's run |
| `RingBuffers.ContiguousView` | src/ring_buffer.c:76-85 | with the region mapped twice, the contiguous view at the wrapped offset is the queue across any number of wraps |
| `RingBuffers.QueueUntouched` | src/ring_buffer.c:111-123 | bytes written ahead of the write index, up to the writable length, change no queued byte |
| `RingBuffers.QueueOverwritten` | src/resp.c:159-172 | bytes written ahead beyond the writable length replace the oldest queued bytes and no others |
| `RingBuffers.RingBuffer.Readable` | src/ring_buffer.c:111-116 | the readable view is the queue's contents and lies within the double mapping |
| `RingBuffers.RingBuffer.Writable` | src/ring_buffer.c:118-123 | the writable view starts at the write index and its length completes the queue to the size |
| `RingBuffers.RingBuffer.Read` | src/ring_buffer.c:125-131 | succeeds exactly within the readable length and drops exactly those bytes; otherwise changes nothing |
| `RingBuffers.RingBuffer.Write` | src/ring_buffer.c:133-139 | succeeds exactly within the writable length and appends exactly the bytes lying ahead; otherwise changes nothing |
| `RingBuffers.RingBuffer.CopyIn` | src/client.c:183 | a copy to the write pointer puts the bytes ahead and changes nothing behind them |
| `RingBuffers.RingBuffer.Append` | src/client.c:124-145 | copy and index update append exactly the bytes, or fail and leave the queue |
| `Writer.PrintText` | src/resp.c:100-152 | `snprintf` into the writable view: what is queued, including the byte lost to the terminator when the room is short |
| `Writer.WriteBeginArray` | src/resp.c:134-152 | queues the array header if there is room for it and its CRLF |
| `Writer.WriteBeginBulk` | src/resp.c:100-119 | queues the bulk header if there is room; the null bulk string gets no CRLF here and loses its last byte to the terminator when the room is exact |
| `Writer.WriteChars` | src/resp.c:159-172 | queues exactly the characters if there is room; otherwise queues nothing and replaces the oldest queued bytes by the characters that did not fit |
| `Writer.WriteEndBulk` | src/resp.c:121-132 | queues the CRLF, or nothing if there is no room |
| `Writer.AddArrayReply` | src/commands.c:32-43 | with strictly more room than the encoding needs, the queue grows by exactly the encoding that the parser undoes |
| `Clients.Client.ParseQueued` | src/client.c:148-160 | one parse over the readable view, dropping what was used, is one read of the machine |
| `Clients.Client.Receive` | src/client.c:124-249 | queueing a chunk and parsing is one step of feeding the machine, unconsumed bytes kept |
| `Clients.Client.ProcessInput` | src/client.c:106-256 | the read loop feeds the machine chunks that together with what is left are the socket's bytes, and stops only when those are used up, the buffer is full or the input cannot go on |
| `Backlogs.Master.OffsetsAgree` | src/client.c:169-203 | base offset plus readable length equals the master's offset, in every reachable state |
| `Backlogs.WindowSlides` | src/client.c:181-203 | dropping the overflow and appending the piece moves the window to the last bytes of the longer stream |
| `Backlogs.CopyOver` | src/client.c:181-203 | both branches: the oldest bytes make way for exactly as much as does not fit |
| `Backlogs.Master.Propagate` | src/client.c:169-203 | after any pieces no larger than the backlog, the backlog is the last min(total, size) bytes of the stream and both offsets count it |
| `Backlogs.PsyncServesWindow` | src/replication.c:340-383 | a replica is served if and only if its offset is inside the window, and then with exactly the bytes it lacks |
| `Backlogs.AcceptedThenServed` | src/commands.c:529-543 | a replica accepted for a partial resync is later cut off if and only if more than the backlog's size is due to it, which takes a backlog that moved on |
| `Backlogs.Master.OnPsync` | src/commands.c:515-543 | a replica goes on if and only if it names this master, its id does not start with `?`, its offset is a number to the end, and that lies in the window of the last bytes propagated; it then goes on at that offset |
| `Backlogs.PsyncAcceptedIff` | src/commands.c:515-543 | for an offset in plain decimals: accepted at that offset for this master's id inside the window, and a full resync in every other case, another id included |
| `Backlogs.Master.ServeReplica` | src/replication.c:340-383 | caught up, sent the rest of the stream, or cut off, by where the offset lies in the stream |
| `Handshake.HandshakeSafety` | src/replication.c:29-124 | in every run from a fresh connection: the commands sent are a prefix of the script, each sent once and only after the very next simple string received since the one before was as expected; nothing sent is taken back, the state never moves back and the error state stays |
| `Handshake.RoundEvolves` | src/commands.c:472-513 | whatever bytes arrive, a parser round moves the handshake state only by the replies it logs, or to the error state |
| `Handshake.FirstReplyDecides` | src/commands.c:472-513 | of any simple strings that arrive together only the first can move the state |
| `Handshake.ReplyComes` | src/commands.c:472-513 | in a waiting state a reply moves to the state of the expected reply or to the error state, never back |
| `HandshakeRuns.ExpectedAnswers` | src/commands.c:472-513 | the answers that count as expected, byte by byte |
| `HandshakeRuns.ReplyDecides` | src/commands.c:472-513 | while a reply is awaited the expected one moves the state on by one and any other to the error state; otherwise replies move nothing |
| `HandshakeRuns.LongReplyFails` | src/command_handler.c:231-242 | a reply that does not fit the buffer is not logged and ends in the error state |
| `HandshakeRuns.LineRead` | src/resp.c:266-282 | a status line, cut anywhere, reaches the handler whole, and what follows it in the full resync state is kept |
| `HandshakeRuns.ReplyArrives` | src/replication.c:29-60 | an awaited reply, in whatever pieces and over however many events it comes, has its effect once it is complete and none before |
| `HandshakeRuns.HandshakeCompletes` | src/replication.c:29-110 | with expected answers that fit the buffer, in whatever pieces and events they arrive, all four commands go out literally as they should and the run ends in the full resync state |
| `HandshakeRuns.PlainAnswers` | src/commands.c:472-513 | an instance: PONG, OK, OK and FULLRESYNC with anything behind it are such answers |
| `HandshakeRuns.HeaderEndIsFirst` | src/replication.c:77-90 | the snapshot header ends behind the first CRLF, and is incomplete exactly if there is none |
| `HandshakeRuns.SnapshotReceived` | src/replication.c:70-124 | then the snapshot header is dropped, the bytes behind it are kept, and the replica is ready when the transfer is done |
| `Handshake.GateConsumesNothing` | src/resp.c:204-212 | while the full resync state lasts the parser uses no byte |
| `Handshake.ResyncLineConsumed` | src/resp.c:204-212 | the line announcing a full resync is used up to its LF and not one byte more |
| `Replicas.ReplicaLink.SendCommand` | src/commands.c:573-605 | a sent command is logged and the state moves on |
| `Replicas.ReplicaLink.FindHeaderEnd` | src/replication.c:77-90 | the search loop finds the first CRLF |
| `Replicas.ReplicaLink.TakeHeader` | src/replication.c:70-110 | the snapshot header is used up to its end once it is complete |
| `Replicas.ReplicaLink.HandleMasterData` | src/replication.c:29-124 | the event handler does what the handshake machine says, for every state and every arrival of bytes |
| `RdbStrings.StringRoundTrip` | src/rdb.c:171-303 | for every string without NUL and any bytes after it: reading what was written leaves exactly those bytes and gives the string in normal form, if and only if its length bytes are readable |
| `RdbStrings.RawRoundTrip` | src/rdb.c:177-215 | a raw string comes back if and only if it is at most 16383 long or its four length bytes contain no 0xFF |
| `RdbStrings.IntegerStringRoundTrip` | src/rdb.c:248-283 | a string that is a number in 32-bit range comes back as the plain decimal of its value |
| `RdbBytes.HeaderMeans` | src/rdb.c:276-300 | which length bytes are written: one, two with 0x4000 added, or five with the length in big-endian order |
| `RdbBytes.ShortLength` | src/rdb.c:179-181 | a first byte below 0x40 is the length |
| `RdbBytes.MediumLength` | src/rdb.c:182-187 | a first byte from 0x40 on makes, with the next, 0x4000 plus the length |
| `RdbBytes.LongLength` | src/rdb.c:188-195 | a first byte from 0x80 on is followed by four big-endian bytes of length; a byte 0xFF among them, or a length of 2^31 or more, reads nothing |
| `RdbBytes.IntegerRead` | src/rdb.c:196-230 | C0, C1 and C2 are followed by one, two and four little-endian bytes in two's complement, read as the number's numeral |
| `RdbBytes.NoSuchEncoding` | src/rdb.c:196-246 | any other first byte reads no string |
| `RdbBytes.OtherTypePassed` | src/rdb.c:84-146 | a record of another type is passed over by its type byte alone |
| `RdbBytes.IntegerWritten` | src/rdb.c:248-275 | a number in plain decimals is written in as few such bytes as its range needs, and beyond 32 bits as text |
| `RdbBytes.LeMeans` | src/rdb.c:340-350 | the bytes written for a number mean it, each times the power of 256 of its place |
| `RdbBytes.SecondsHead` | src/rdb.c:98-106 | a time in seconds is multiplied by 1000 in 32 bits |
| `RdbBytes.MillisecondsHead` | src/rdb.c:107-115 | a time in milliseconds is taken as it is, in 64 signed bits |
| `RdbBytes.WaysToEnd` | src/rdb.c:39-165 | what ends a load, and with which code |
| `RdbBytes.CutRecordFails` | src/rdb.c:84-146 | a record cut off before its type byte fails the load there |
| `RdbBytes.UnreadableMetadata` | src/rdb.c:48-70 | a metadata section ends at the first string of no known encoding |
| `RdbBytes.SampleFileLoads` | src/rdb.c:15-169 | a file given byte by byte, with metadata, a 14-bit length, an integer and a time in seconds: the store it loads as |
| `RdbBytes.SampleSaved` | src/rdb.c:305-364 | a store of two entries: the bytes it is saved as |
| `RdbStrings.NormalIdempotent` | src/rdb.c:248-283 | normalisation is idempotent, and keeps a string exactly if it is no such number or its plain decimal |
| `RdbFiles.RdbFile.WriteString` | src/rdb.c:248-303 | all six encodings: the bytes written and, as the value returned, their number |
| `RdbFiles.RdbFile.PutLe` | src/rdb.c:344-347 | the shifting loop writes the little-endian bytes |
| `RdbFiles.RdbFile.TakeLengthBytes` | src/rdb.c:188-198 | the loop over the four length bytes, with 0xFF taken for the end of the file |
| `RdbFiles.RdbFile.ReadString` | src/rdb.c:171-246 | the string read and the cursor afterwards, for every content of the file |
| `SnapshotTrip.PairLoaded` | src/rdb.c:94-145 | a saved string entry, whatever follows it, is loaded in normal form with its expiration, or refused if a string cannot be read |
| `SnapshotTrip.PairsLoaded` | src/rdb.c:84-146 | the record loop reads exactly as many records as were counted before the end opcode, and one or more too many when lists were counted |
| `SnapshotTrip.SnapshotLoads` | src/rdb.c:15-364 | every store of any size: how many records are read, which entries come back and in which form, what is read on as sections, and the code reported |
| `SnapshotTrip.SmallSnapshotLoads` | src/rdb.c:15-364 | with at most 255 entries the string entries come back in normal form up to the first unreadable one, and success is reported exactly if there is none and at most one list |
| `SnapshotTrip.SmallRoundTripIff` | src/rdb.c:15-364 | at most 255 entries: loading what was saved gives the same store with success if and only if every entry is a readable string in normal form with a non-negative expiration |
| `LargeSnapshots.SnapshotRoundTripIff` | src/rdb.c:15-364 | stores of any size: loading what was saved gives the same store with success if and only if there are at most 255 entries and each is a readable string in normal form with a non-negative expiration |
| `LargeSnapshots.LargeNeverLoads` | src/rdb.c:77-165 | more than 255 entries never come back whole, whatever the records beyond the count mean as sections: a further table costs more bytes than the records leave |
| `LargeSnapshots.DecodeCost` | src/rdb.c:171-303 | no encoding of a non-empty string is shorter than the one it is written in |
| `LargeSnapshots.PairCost` | src/rdb.c:84-146 | a record that is read sets at most one entry, and takes at least as many bytes as the entry's value, key and time cost |
| `LargeSnapshots.TablePresent` | src/rdb.c:77-147 | reading any number of records, of any bytes, brings back no more of a store than the bytes read pay for, and no more keys than records |
| `LargeSnapshots.SectionsPresent` | src/rdb.c:39-165 | sections of any bytes leave the store alone or spend three bytes on the head of a table, and bring back no more than the others pay for |
| `LargeSnapshots.AllLost` | src/rdb.c:77-84 | of 256 plain entries, or any multiple, none comes back, and success is reported |
| `LargeSnapshots.SamplesLost` | src/rdb.c:77-84 | an instance: 256 entries that a snapshot keeps one by one are all lost when they are saved together |
| `SnapshotTrip.KeysLost` | src/rdb.c:77-84 | the count is one byte: when the records beyond it contain no section opcode, their keys are lost and the load reports success |
| `SnapshotTrip.PlainSkipped` | src/rdb.c:39-165 | the section loop passes over bytes that are no opcode without any effect |
| `SnapshotTrip.LeftoverTable` | src/rdb.c:72-147 | a table opcode among the bytes beyond the count is read as a table, and what follows it is loaded as further entries |
| `Rdb.Save` | src/rdb.c:305-364 | the file holds the preamble, the record of every entry in bucket order and the end opcode |
| `Rdb.WriteEntries` | src/rdb.c:336-358 | the scan over the buckets writes the records of the live ones in order |
| `Rdb.SavedLoadsIff` | src/rdb.c:15-364 | for every valid database: its snapshot loads as the same store if and only if it has at most 255 keys and a snapshot keeps every entry |
| `Rdb.ReadRecords` | src/rdb.c:84-146 | the record loop changes the database as the byte-level description says, up to the first failure |
| `Rdb.ReadMetadata` | src/rdb.c:48-70 | the metadata loop, with its three ways out |
| `Rdb.ReadSections` | src/rdb.c:39-165 | the section loop terminates and changes the database as the byte-level description says |
| `Rdb.Load` | src/rdb.c:15-169 | for every file content and every valid database: the return code and the new store, with the room that was there beyond the bytes of the file still there |
| `LinkedList.List.PushLeft` | src/linked_list.c:46-79 | relinking at the head prepends the item; links, ends and length stay consistent, from an uninitialised length on |
| `LinkedList.List.PushRight` | src/linked_list.c:81-114 | relinking at the tail appends the item; links, ends and length stay consistent |
| `LinkedList.List.ChainsAgree` | src/linked_list.c:46-114 | following `next` from the head and `prev` from the tail visits the same nodes in opposite order, and both chains end there |
| `LinkedList.List.Walk` | src/linked_list.c:151-167 | the two loops copy the items from the start, up to the count or the end of the list |
| `LinkedList.List.Range` | src/linked_list.c:116-175 | exactly the slice that the code's index rules give, for lists of any length, through the conversions between `int` and `size_t`, and nothing for a list whose length is uninitialised |
| `LinkedList.RangeReadIsPromised` | src/linked_list.c:122-140 | wherever the sums and the count fit an `int`, and so for every list of fewer than 2^31 items, that slice is the promised inclusive range with indices counted from either end |
| `LinkedList.RangeIsBetweenIff` | src/linked_list.c:122-140 | the range is all items between the two ends if and only if the start is not before the head of a list that has items up to the end |
| `LinkedList.RangesJoin` | src/linked_list.c:122-140 | adjoining ranges put together are the list; 0 to -1 is all of it; an index counted from either end names the same item |
| `Scan.ScanIsExact` | src/rdb.c:336-338 | the scan over the buckets sees as many entries as the size, every key once, and exactly the map |
| `Cells.PushOn` | src/database.c:152 | a push onto one list object changes what that list holds and leaves every other list as it is |
| `Cells.ListChanged` | src/database.c:139-171 | a list that changes behind its pointer changes the store at its own key and nowhere else |
| `Database.RedisDb.constructor` | src/database.c:117-124 | an empty store, nothing counted |
| `Database.RedisDb.Put` | src/database.c:26-68 | the store maps the key to the new value and expiration, all else unchanged; the key counter stays the size of the table |
| `Database.RedisDb.Find` | src/database.c:70-89 | finds the entry unless it is past its time, in which case it is deleted and uncounted |
| `Database.RedisDb.Remove` | src/database.c:97-115 | the store without the key; the key counter stays the size of the table |
| `Database.RedisDb.ListFor` | src/database.c:140-151 | the list object under the key, a new one if there is none, nothing if the key holds a string |
| `Database.RedisDb.Push` | src/database.c:139-171 | one push: store, length and list objects afterwards, with the type error and the creation of the list |
| `Database.RedisDb.LRange` | src/database.c:173-190 | the range of the list, or the type error, or no such key; an expired list is deleted |
| `Database.RedisDb.KeyAccounting` | src/database.c:196 | the key counter, the table's size, the number of keys in the store and the number of buckets the scan visits are one; the entries visited are the store |
| `SetOptions.ParseSetOptions` | src/commands.c:77-137 | the option loop, for every argument list |
| `SetOptions.AcceptedOptions` | src/commands.c:77-137 | in every accepted option list NX and XX exclude each other, KEEPTTL excludes a time, and each flag is set if and only if its word occurs, wherever it stands |
| `SetWords.WordsDecide` | src/commands.c:77-137 | an option list is accepted if and only if no word clashes with an earlier one and every time can be read, with the options its words describe; otherwise the first word at fault decides which error it is |
| `SetWords.OneDecision` | src/commands.c:77-137 | that description leaves no choice |
| `SetWords.OptionNames` | src/commands.c:77-137 | the option words, as texts |
| `SetWords.NoDigitNoInteger` | src/commands.c:98-133 | without a digit behind blanks and sign there is no number |
| `SetWords.IntegersParsed` | src/commands.c:98-133 | a number may have blanks before it and a sign, must end the text and must fit 64 bits |
| `Expiry.LazyExpiryIsExact` | src/database.c:70-89 | over any run of SET, GET, DEL, LPUSH, RPUSH and LRANGE with a clock that does not go back, all replies are those of a store that never deletes expired entries and filters them by time |
| `Expiry.AgreeCommand` | src/commands.c:161-379 | one command: the purging and the never-purging store reply alike and stay indistinguishable from then on |
| `CommandLaws.PlainSetThenGet` | src/commands.c:161-247 | a SET without options is confirmed, and a GET of the key from then on replies the value |
| `CommandLaws.GetFinds` | src/commands.c:230-247 | GET replies the string under its key, null for nothing, and an error for a list |
| `CommandLaws.SetThenGet` | src/commands.c:161-247 | after a SET a later GET replies the new value until its time if the conditions NX and XX allowed it, and what it would have replied otherwise; KEEPTTL keeps the time the key had |
| `CommandLaws.SetElsewhere` | src/commands.c:161-228 | a SET changes no reply to GET or LRANGE of another key, at no time |
| `CommandLaws.SetReplies` | src/commands.c:161-228 | every reply of SET: the four errors, null where NX or XX forbids it, what a GET just before would have replied if GET is among the options, and otherwise OK; a refused SET changes nothing |
| `CommandLaws.TimedSet` | src/commands.c:98-133 | a value set with EX, PX, EXAT or PXAT, for every number: a negative deadline is refused and GET sees what it saw before, zero means never, and otherwise the value is there up to the deadline and gone after it |
| `CommandLaws.DeadlineMetIff` | src/commands.c:98-133 | GET follows the deadline at all later times if and only if it is positive, or is refused and nothing was there before |
| `CommandLaws.ZeroIsNever` | src/commands.c:115-123 | an instance: SET with EXAT 0, a time long past, stores a value that never goes |
| `CommandLaws.TenSeconds` | src/commands.c:96-104 | literally: SET with EX 10 is there for ten seconds and gone after them |
| `CommandLaws.DelThenGet` | src/commands.c:266-277 | DEL is confirmed; a later GET of a key it names replies null, and of any other what it would have |
| `Expiry.ReadersKeep` | src/commands.c:230-247 | GET and LRANGE change nothing that can be found from then on |
| `Expiry.PushedList` | src/commands.c:316-354 | LPUSH puts its items in front in reverse order, RPUSH behind in order; both reply with the new length |
| `CommandLaws.PushThenRange` | src/commands.c:316-379 | the reply to LPUSH and RPUSH is the new length, and LRANGE from 0 to -1 shows from then on the items in front in reverse order, or behind in order |
| `CommandLaws.NewListTime` | src/commands.c:316-354 | a new list has the time -1 after LPUSH and 0 after RPUSH |
| `CommandLaws.PushRefused` | src/commands.c:316-354 | a push onto a string replies an error and changes nothing |
| `CommandLaws.RangeIsSlice` | src/commands.c:356-379 | LRANGE with a start and an end inside the list replies the items from the one up to and with the other |
| `CommandLaws.RangeFromEnd` | src/commands.c:356-379 | negative indices count from the end |
| `CommandLaws.RangeOutside` | src/commands.c:356-379 | an end behind the list is its last item; a start outside it, or behind the end, gives nothing |
| `CommandLaws.RangeFindsNone` | src/commands.c:356-379 | LRANGE of nothing is empty, and of a string an error |
| `CommandLaws.NoNumberIsZero` | src/commands.c:356-379 | an index that is no number counts as 0 |
| `CommandLaws.WrongArityIff` | src/commands.c:161-379 | which numbers of arguments each command refuses; it then changes nothing |
| `Reachable.RunKeeps` | src/commands.c:161-379 | after any run every list in the store has an element and no deadline, and every string is a C string with a time in range |
| `Reachable.SnapshotOfRun` | src/rdb.c:15-364 | whatever run built a store: what its snapshot restores, and that it is the same store if and only if it has at most 255 entries and a snapshot keeps every one |
| `StoreCommands.HandleSet` | src/commands.c:161-228 | reply and new store, for every argument list, option and time, and how far the table can have grown |
| `StoreCommands.HandleGet` | src/commands.c:230-247 | reply and new store, with the arity and type errors |
| `StoreCommands.HandleDelete` | src/commands.c:266-277 | the loop deletes all the keys named |
| `StoreCommands.HandlePush` | src/commands.c:316-354 | the loop pushes item by item and stops at a type error; all list objects stay well formed |
| `StoreCommands.HandleRange` | src/commands.c:356-379 | the items in the range, with indices that are no numbers taken for 0 |
| `StoreCommands.Serve` | src/command_handler.c:52-118 | every one of these commands keeps the whole invariant of the database and its lists, replies as the store description says, and leaves the room it found less its own arguments, so that the next one can be served |
| `Serving.ServeRun` | src/command_handler.c:52-118 | the commands of any run served one after the other: all replies, in order, and the store afterwards; with a clock that does not go back the replies are those of a store that never deletes an expired entry; the database is ready for as much more as there was room for |
| `Serving.ServeFromEmpty` | src/database.c:70-89 | a database that starts empty: over any run with a clock that does not go back its replies are those of a store that never deletes an expired entry; its lists and strings can be saved; it shares nothing with any other object and is ready for more |
| `Serving.Restart` | src/rdb.c:15-364 | saving a database and loading the file into an empty one gives what the bytes say, and the same store, with success, if and only if there are at most 255 keys and a snapshot keeps every entry; the new database is ready to serve and shares nothing with the old |
| `Serving.RestartAndServe` | src/rdb.c:15-364 | a restart that keeps the store cannot be observed: the replies before and after it are those of one run over a store that is never restarted and never deletes an expired entry |
| `Sessions.ReceiveAll` | src/client.c:106-256 | a client that gets commands in pieces, none cut inside a payload, logs exactly those commands with their arguments and is back between two commands |
| `Sessions.WholeStreamFits` | src/client.c:124-147 | a buffer of the size of the stream has room for every piece behind what is not yet parsed |
| `Sessions.DispatchByName` | src/command_handler.c:13-50 | which name is which command, as texts, and that no other name is one of these |
| `Sessions.SetThenGetServed` | src/command_handler.c:13-118 | SET and GET of a key by name, through the dispatch: OK and the value |
| `Sessions.ServeSession` | src/command_handler.c:13-118 | from bytes to replies: commands that arrive in such pieces are parsed, dispatched by name and served, and get the replies of a store that never deletes an expired entry |
| `Sessions.ServeConnection` | src/command_handler.c:13-118 | the same for a new connection to a new server, from the empty store |

## Left out

- Sockets, epoll, signals, the event loop, command-line arguments and configuration: calls into the system.
- Creation of the doubly mapped memory of a ring buffer: the double mapping is taken as given.
- Allocation, freeing and their failures; `n_buckets` is assumed to stay at most 2^30 before an insertion.
- The factor 0.77 of the load bound is computed as (77 n + 50) / 100 in integers instead of in a `double`.
- Concrete hash functions: the table is proved for every function from keys to numbers.
- Parsers.RespParser.ParseLength: a declared length below -1 is refused by the model at once; the code passes it on to the handler and counts down from it.
- A null bulk string as the first element of a command asks the handler for a buffer of almost 2^64 bytes and ends the server; the model only appends nothing.
- A command without arguments, from an array of length 0 or -1 or an empty inline line, makes `handle_command` read a first argument that is not there (src/command_handler.c:55); the model logs the empty command, and `Sessions.Dispatch` names none for it.
- RoundTrip.CommandsRoundTrip: the number of arguments and their lengths are in `int` range (`Fits`), which the parser demands of the numbers it reads; so for `Pipeline.PipelineInChunks` and `Pipeline.HarmlessCutIff`.
- A simple string inside an array empties the buffer under the recorded ends; the model cuts empty arguments there.
- The capacity of the array of argument ends, which the code sizes from the announced length or from `count_tokens`.
- `count_tokens` for inline commands: only its result for the allocation differs from the tokens delivered.
- Writer.WriteChars: requires a string no longer than the whole buffer; a longer one would run over itself or leave the double mapping.
- Writer.AddArrayReply: requires strictly more room than the encoding, because a header printed into less loses a byte to the terminator of `snprintf`.
- Backlogs.Master.Propagate: the bytes put into the backlog are those that were parsed; the code passes the address of the input buffer's handle to the copy. A piece is at most the backlog's size, as the input buffer of 65536 bytes is smaller than the backlog of 1048576.
- Clients.Client.ProcessInput: the propagation inside the loop is `Backlogs.Master.Propagate`; disconnection and flushing are left out. What a client does after an overrun, when the cursor cannot be moved, is left out too: the model stops there.
- Handshake.HandshakeSafety: replies are simple strings; an error, integer or bulk reply is skipped by the code and by the model. That the connection is to a master is fixed, while a PSYNC command received from the master would make the code take it for a replica.
- Replicas.ReplicaLink.SendCommand: logs the command; that its bytes are queued is `Writer.AddArrayReply`.
- Replicas.ReplicaLink.HandleMasterData: after a complete header the code goes on to receive snapshot data within the same call (src/replication.c:113); the model ends the event there, keeps what is buffered, and takes the data as the next event.
- The copy of propagated bytes to the replicas' output buffers, and flushing.
- The transfer of the snapshot between master and replica: its completion is an event of the handshake model.
- `expiry_count`: it is updated as the code does and nothing is claimed of it, since overwriting and deleting do not maintain it.
- The clock is read once per command; a command that reads it again later sees the same time.
- Expirations are computed in two's complement 64-bit arithmetic; the code's signed overflow is undefined.
- StoreCommands.HandleSet: the GET option on a key that holds a list reads the list pointer as a string; the model replies `Unspecified`.
- LinkedList.List.Range: an index count of 2^31, possible only for a list of that many items, overflows `int` in the code; the model lets it wrap round, whereupon nothing is allocated.
- Database.RedisDb.Find: leaves the list objects alone because it may not modify them; that they stay well formed is stated where lists are used and in `StoreCommands.Serve`.
- LargeSnapshots.SnapshotRoundTripIff: of stores with more than 255 entries only those are covered in which no string value is empty and no deadline of a string is a positive multiple of 8 below 2^32 milliseconds, that is in early 1970. Those have a shorter form than the one they are saved in, so that counting bytes does not decide. The same holds for `Rdb.SavedLoadsIff`, `Reachable.SnapshotOfRun` and `Serving.Restart`. Smaller stores are all covered.
- Serving.ServeFromEmpty: a run of at most 2^28 arguments in all, so that the table stays within its bound.
- Serving.Restart: the bytes of the snapshot and the arguments to come are at most 2^28 together, for the same reason.
- Sessions.ServeSession: commands are executed after all the pieces have arrived and not each as soon as it is complete, each at its own time; nothing parsed depends on a reply. Commands that are not modelled, or are unknown, are not among those sent.
- Rdb.Load: requires room for as many keys as the file has bytes, so that the table stays within its bound; opening the file is not modelled.
- Replies are modelled as values; that a connection can be marked to get none is not.
- INCR, DECR, EXISTS, DBSIZE, PING, ECHO, CONFIG, INFO, and REPLCONF: single-branch facts.
