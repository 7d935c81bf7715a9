# Verified model of the lemondory game server

This project models the core of a C++ game server (an asio channel with length-prefixed,
checksummed frames, a session layer with database strands, a connection pool, message codecs, a
guild index and map threads) in Dafny, and proves what its parts promise for every input, every
interleaving and every run. `dafny verify dfyconfig.toml` checks all of it.

## Main results

- **End to end** (`EndToEnd.Delivery`). Any number of senders interleave at every shared access;
  the writer batches; the receiver reads in arbitrary pieces. The delivered frames are always a
  prefix of the accepted ones in lock order, and all of them once everything is written and read.
  Every run without a failed write can be carried on to quiet, and `EventualDelivery` says exactly
  when the receiver then has all frames.
- **Send protocol** (`SendProtocol.EveryRun`). The spin lock, the writer flag, the byte counter
  and the queue are separate variables and each access is one step. One write is in flight at a
  time, the wire is a prefix of what was accepted, the byte counter never exceeds 262144 and its
  unlocked subtraction never wraps. Once all is quiet without error, everything was sent exactly
  when every accepted message is at most 65536 bytes and no thread was left waiting by a writer
  about to give up. `SendSchedules` shows that uninterrupted handlers are runs of this protocol,
  and gives the runs in which it falls short: an oversized message, a stranded small one, and a
  counter above what is queued, for which `CounterExact` says exactly when.
- **Progress** (`SendProgress.EveryRunComesToRest`). Until all is quiet some thread or the socket
  can go on, and without new calls the work is bounded by a measure every access lowers.
- **Closing** (`SendClosing.ClosedForGood`). After a close only messages that sends had in hand can
  still be accepted, each at most once; with none in hand, nothing.
- **Receiving** (`FrameStream.ChunkIndependence`, `ErrorContainment`). How the stream is cut
  matters exactly when the parser meets an ill-formed length before the last byte. Damage inside
  a 32-bit window of one payload costs that frame and no other.
- **Checksum** (`Crc32.Compute`, `Crc32Standard.Residue`, `ChecksumDetectsBurst`). The table-driven
  loop is the bit-serial CRC-32 of IEEE 802.3, by its residue on every payload and its check value,
  and it detects every burst of at most 32 bits.
- **Sessions** (`Sessions.LogoutIsLast`, `SessionsConsistent`, `NoOrphansIff`). Once a channel
  closes, its logout save is the last thing ever posted for it. Sessions own live entities of
  their own exactly until a login is given an id that is already bound, which takes more than 2^32
  creations. An entity is left behind exactly by a login that replaces it or by closing a channel
  whose entity has the wrapped id zero. `SharedEntity` and `ZeroEntity` are runs that do so. With at
  most one login request per channel and fresh ids none is left (`OneLoginEach`). What is saved for
  a session is what it loaded or last reported (`SessionState.SavesWhatWasShown`).
- **Database** (`DbPool.StopClosesWholePool`, `StarvationBound`, `PlayerDao.SavedIff`). Free and
  held connections partition the pool; when the server stops, none is out as the pool closes;
  workers never starve exactly when they are no more than the connections.
- **Messages, guilds, maps.** Round trips both ways, truncation and prefix freedom for the fully
  guarded codecs; consistency of the guild maps and of the map placement over whole runs, each
  with the exact condition under which an operation keeps it.

## How it is modelled

| file | models |
|---|---|
| Bytes, Wrappers, Collections | fixed-width numbers, little-endian layout, options, choosing from sets |
| Crc32, Crc32Standard, FrameCodec, FrameStream | `common/network/frame_codec.hpp` and the read path of the channel |
| SendQueue, Channel | the channel's write queue and batching, and the channel object with atomic handlers |
| SendProtocol, SendSchedules, SendProgress, SendClosing | the send path as a state machine over single accesses |
| EndToEnd | sender and receiver together |
| Sessions, SessionState | accept, login, flush, kill and close with first-in-first-out strands per channel |
| DbPool, PlayerDao | the connection pool, its workers, and the retry loops |
| Messages, Packets | field codecs, and the six messages whose parsers check every read |
| Guilds, MapThreads | the guild index; map threads and their manager |

Objects the server updates in place are classes whose methods are proved against functions on
values; whole runs are sequences of events over these values. The server, the guild registry and
the map manager carry the events they have handled as history, and their invariant says that they
are where that run leads, so the theorems about runs are theorems about the objects. The clock, the network, the
database and the scheduler are parameters: every chunking, every interleaving, every outcome of a
query and every order of arrival is allowed. Byte strings are sequences of numbers below 256;
32-bit and 64-bit wrap-around is written out where it can occur. A payload's length word and the
wrap of guild and entity ids are modelled; buffer sizes themselves are unbounded.

Where the code and a reasonable reading of it differ, the code is followed: a forced close by
backpressure is counted twice, a desynchronised stream loses whatever happens to be buffered, a
message over 65536 bytes blocks the queue, a move to a missing map leaves the old record in place,
a removed player's entity stays listed on the map, entity id zero counts as no entity at a close.

## Model

| member | source | states |
|---|---|---|
| `Bytes.Le16RoundTrip` | common/network/frame_codec.hpp:17-30 | a 16-bit number put little-endian is read back, whatever follows it |
| `Bytes.Le32RoundTrip` | common/network/frame_codec.hpp:21-36 | a 32-bit number put little-endian is read back, whatever follows it |
| `Bytes.Le32Unique` | common/network/frame_codec.hpp:31-36 | reading four bytes and putting the number back gives the same four bytes |
| `Crc32.ShiftMix` | common/network/frame_codec.hpp:45 | the bit step of the register is linear over exclusive or |
| `Crc32.ShiftInjective` | common/network/frame_codec.hpp:45 | the bit step loses nothing: different registers stay different |
| `Crc32.FeedInjective` | common/network/frame_codec.hpp:50-53 | feeding the same bits to different registers leaves them different |
| `Crc32.FeedWord` | common/network/frame_codec.hpp:50-53 | feeding at most 32 bits one by one is mixing them in as a word and then shifting that often |
| `Crc32.FeedAppend` | common/network/frame_codec.hpp:50-53 | feeding two pieces in turn is feeding them joined |
| `Crc32.FeedDetectsBurst` | common/network/frame_codec.hpp:50-53 | bit strings that differ only inside a window of 32 bits leave different registers |
| `Crc32.ChecksumDetectsBurst` | common/network/frame_codec.hpp:39-54 | payloads of equal length that differ only inside a window of 32 consecutive bits, at any bit position, have different checksums |
| `Crc32.ChecksumDetectsFourBytes` | common/network/frame_codec.hpp:39-54 | payloads that differ only inside four consecutive bytes have different checksums |
| `Crc32.LookupStep` | common/network/frame_codec.hpp:51-52 | one table step equals eight steps of the bit-serial register, for every register and byte |
| `Crc32.BuildTable` | common/network/frame_codec.hpp:42-49 | the table loops fill entry j with j shifted eight times |
| `Crc32.Compute` | common/network/frame_codec.hpp:50-54 | the table-driven loop computes the bit-serial checksum of every byte string, which Crc32Standard identifies |
| `Crc32Standard.WordAsBytes` | common/network/frame_codec.hpp:21-26 | a checksum put little-endian is fed to the register as its own 32 bits |
| `Crc32Standard.Residue` | common/network/frame_codec.hpp:39-54 | every payload followed by its checksum as a frame carries it leaves the register at 0xDEBB20E3, the residue of the CRC-32 with polynomial 0xEDB88320 |
| `Crc32Standard.CheckValue` | common/network/frame_codec.hpp:39-54 | the checksum of the digits 1 to 9 is 0xCBF43926, the catalogued check value |
| `FrameCodec.PutLe16` | common/network/frame_codec.hpp:17-20 | writes the two bytes in place and nothing else |
| `FrameCodec.PutLe32` | common/network/frame_codec.hpp:21-26 | writes the four bytes in place and nothing else |
| `FrameCodec.CopyPayload` | common/network/frame_codec.hpp:84-87 | the payload fills the buffer after the header; the header is untouched |
| `FrameCodec.PutFields` | common/network/frame_codec.hpp:75-82 | length, command, flags, version and sequence number are laid out in this order |
| `FrameCodec.Pack` | common/network/frame_codec.hpp:66-94 | the buffer filled in place is the frame: header with the checksum of the payload, then the payload |
| `FrameCodec.TryParseOne` | common/network/frame_codec.hpp:99-134 | success exactly when a whole well-formed frame is at the offset, with its fields, checksum verdict and the offset after it; otherwise the offset stays, or skips all on an ill-formed length |
| `FrameCodec.HeaderFields` | common/network/frame_codec.hpp:120-124 | every header field is read from where it was written |
| `FrameCodec.HeadOfTampered` | common/network/frame_codec.hpp:120-133 | with the header intact, any payload of the same length parses as one frame, accepted exactly when the checksums agree |
| `FrameCodec.PackParse` | common/network/frame_codec.hpp:66-134 | a packed frame parses back, whatever follows it, exactly when it is within the frame limit |
| `FrameCodec.ParsePack` | common/network/frame_codec.hpp:66-134 | the bytes of a frame that parses with a good checksum are what packing its fields gives |
| `FrameCodec.HeadStable` | common/network/frame_codec.hpp:103-134 | a verdict other than "need more" does not change when more bytes arrive |
| `FrameCodec.HeadOfPartialFrame` | common/network/frame_codec.hpp:103-114 | every proper prefix of a frame asks for more |
| `FrameCodec.FrameLayout` | common/network/frame_codec.hpp:66-94 | byte by byte where each field of a frame is: length, command, flags, version, sequence number, checksum, payload |
| `FrameCodec.GivesUpIff` | common/network/frame_codec.hpp:103-118 | the parser skips everything exactly on a length over 2^20, or on one under 12 whose announced bytes are there |
| `FrameCodec.AsksForMoreIff` | common/network/frame_codec.hpp:103-114 | it asks for more exactly while the length, or what a length up to 2^20 announces, is incomplete |
| `FrameStream.RunSnoc` | server/network/asio_channel.cpp:142-146 | one more read is one more drain of the unread bytes and the new ones |
| `FrameStream.ScanMore` | server/network/asio_channel.cpp:240-256 | how a one-shot parse continues when the stream is extended |
| `FrameStream.RunMatchesDrain` | server/network/asio_channel.cpp:142-146 | the receiver started on any unread tail matches a one-shot parse of tail and stream |
| `FrameStream.ChunkIndependence` | server/network/asio_channel.cpp:236-264 | every cutting of a stream gives the frames and the tail of a one-shot parse exactly when the parser meets no ill-formed length before its last byte |
| `FrameStream.LateByteSurvives` | common/network/frame_codec.hpp:108-118 | otherwise there is a cutting that keeps a byte the one-shot parse discards |
| `FrameStream.DesyncExample` | common/network/frame_codec.hpp:108-111 | a five-byte stream for which the cutting matters |
| `FrameStream.RunExtendsScan` | server/network/asio_channel.cpp:236-256 | for every stream and cutting, the frames before the first ill-formed length met come first |
| `FrameStream.RestIsShort` | common/network/frame_codec.hpp:103-118 | after any drain at most 2^20+3 bytes are unread |
| `FrameStream.ScanFrames` | server/network/asio_channel.cpp:240-256 | a stream of packed frames is delivered frame by frame, and parsing goes on with what follows |
| `FrameStream.ScanPrefix` | server/network/asio_channel.cpp:240-256 | a stream of packed frames cut at any byte delivers a prefix of the frames, and all of them when it is whole |
| `FrameStream.ErrorContainment` | server/network/asio_channel.cpp:240-256 | with one payload damaged inside a 32-bit window and any cutting, exactly the other frames are delivered, in order, with one drop in its place |
| `SendQueue.BatchIsMaximal` | server/network/asio_channel.cpp:222-231 | the batch length is the only maximal one |
| `SendQueue.BatchIsEmpty` | server/network/asio_channel.cpp:220-231 | no batch is made exactly when the queue is empty or its head is over 65536 bytes |
| `SendQueue.DrainedStopsAtOversized` | server/network/asio_channel.cpp:222-231 | repeated batches leave exactly the queue from its first message over 65536 bytes on |
| `SendQueue.DrainsCompletely` | server/network/asio_channel.cpp:222-231 | repeated batches empty the queue exactly when every message is at most 65536 bytes |
| `SendQueue.AcceptKeeps` | server/network/asio_channel.cpp:53-70 | an accepted message keeps order, counters, limit and writer flag in agreement |
| `SendQueue.WrittenKeeps` | server/network/asio_channel.cpp:165-184 | a completion keeps them too, appends its batch to the wire and shortens the queue |
| `SendQueue.BrokenKeeps` | server/network/asio_channel.cpp:166-171 | a failed write keeps them too, counting its batch as lost |
| `SendQueue.IdleIsSent` | server/network/asio_channel.cpp:153-185 | a channel that is not writing has an empty queue exactly when all it accepted is on the wire, and exactly when every accepted message is at most 65536 bytes; otherwise it waits for one that is not |
| `Channel.AsioChannel.ParseFrames` | server/network/asio_channel.cpp:236-264 | the loop delivers and drops what one drain of the unread bytes does, keeps the same tail, and what compaction shifts is paid for by bytes that left the buffer |
| `Channel.AsioChannel.EnqueueSend` | server/network/asio_channel.cpp:187-209 | a message is queued exactly when it keeps the byte counter within 262144, with all counters; otherwise one drop and no change |
| `Channel.AsioChannel.MakeBatch` | server/network/asio_channel.cpp:211-232 | the batch is the maximal prefix of the queue within 64 messages and 65536 bytes, and is taken off the queue |
| `Channel.AsioChannel.DoWrite` | server/network/asio_channel.cpp:153-164 | starts the batch, or frees the writer flag when there is none |
| `Channel.AsioChannel.Send` | server/network/asio_channel.cpp:53-70 | an open channel accepts every non-empty message within the limit; over the limit it drops it and closes, counting the forced close twice; the send invariant is kept |
| `Channel.AsioChannel.OnWritten` | server/network/asio_channel.cpp:165-184 | a completed write reduces the counters by its batch and starts the next one; the send invariant is kept |
| `Channel.AsioChannel.OnWriteError` | server/network/asio_channel.cpp:166-171 | a failed write leaves a prefix of its batch on the wire and closes the channel; the send invariant is kept |
| `Channel.AsioChannel.WriteUntilIdle` | server/network/asio_channel.cpp:153-185 | repeated completions terminate with the writer flag free and the queue empty up to its first oversized message; with none, the wire is all that was accepted |
| `Channel.AsioChannel.constructor` | server/network/asio_channel.cpp:22-35 | a started channel satisfies the receive and the send invariant, with nothing read or accepted |
| `Channel.AsioChannel.OnRead` | server/network/asio_channel.cpp:142-146 | from any started channel, after any reads: the log and tail are those of the read history, the buffer is at most 2*(2^20+3) bytes, and the bytes ever shifted are at most the bytes received |
| `SendProtocol.LockMoveKeeps` | server/network/asio_channel.cpp:192 | a step that takes the lock only when it is free and frees only its own keeps at most one thread inside |
| `SendProtocol.EnqueueKeeps` | server/network/asio_channel.cpp:187-209 | each access of enqueue keeps the wire, byte and message accounts |
| `SendProtocol.BatchKeeps` | server/network/asio_channel.cpp:211-232 | making a batch moves bytes and messages from the queue to the writer, in order |
| `SendProtocol.SubtractKeeps` | server/network/asio_channel.cpp:173 | the unlocked subtraction never takes the counter below zero |
| `SendProtocol.CompletionKeeps` | server/network/asio_channel.cpp:165-184 | each access of the completion handler keeps the accounts |
| `SendProtocol.SocketKeeps` | server/network/asio_channel.cpp:164-171 | completion and failure of a write keep the accounts |
| `SendProtocol.AcceptStep` | server/network/asio_channel.cpp:194-202 | only non-empty messages within the limit enter the history of accepted ones |
| `SendProtocol.CompareExchangeKicks` | server/network/asio_channel.cpp:67-69 | whenever a batch can be made and no writer will see it, a thread will still try for the flag, or a message is recorded as stranded: a lost try keeps this |
| `SendProtocol.CompletionKicks` | server/network/asio_channel.cpp:178-183 | the steps of a completion keep this too |
| `SendProtocol.DoKeeps` | server/network/asio_channel.cpp:53-232 | every single access of any thread, and every socket event, keeps the whole invariant |
| `SendProtocol.CounterExact` | server/network/asio_channel.cpp:194-201 | the counter drifts during a run exactly when some store writes a value based on a load that has gone stale |
| `SendProtocol.StrandedIff` | server/network/asio_channel.cpp:158-160 | the record that a message is stranded says what the events say: some thread tried for the flag with messages queued while the writer had already found the queue empty, and nobody took the flag since |
| `SendProtocol.EveryRun` | server/network/asio_channel.cpp:53-232 | in every interleaving of any number of senders: one write at a time, wire ++ in flight ++ queue is the accepted messages in lock order (a prefix after an error), the counter stays within 0..262144, equals queue plus flight plus what a failed write and overwritten subtractions left, message counts add up, and when all is quiet with no error everything was sent exactly when every accepted message is at most 65536 bytes and no thread of the run was left waiting |
| `SendSchedules.SendIsSerial` | server/network/asio_channel.cpp:53-70 | a send without interruption, made of the protocol's single accesses, has the effect of the atomic handler |
| `SendSchedules.CompletionIsSerial` | server/network/asio_channel.cpp:165-184 | likewise a completion |
| `SendSchedules.StrandedMessage` | server/network/asio_channel.cpp:158-160 | a run that ends quiet, open and without error with a small message left in the queue, because a thread was left waiting |
| `SendSchedules.RefusalIsSerial` | server/network/asio_channel.cpp:53-65 | a send over the limit without interruption leaves the send side as it was, counts a drop and closes |
| `SendSchedules.FailureIsSerial` | server/network/asio_channel.cpp:164-171 | a failed write without interruption has the effect of the atomic handler |
| `SendSchedules.OversizedMessage` | server/network/asio_channel.cpp:225 | a run that ends quiet, open and without error with a message over 65536 bytes left in the queue, though nobody was left waiting |
| `SendSchedules.DriftedCounter` | server/network/asio_channel.cpp:194-201 | a run that ends with the counter above what is queued, with nothing in flight |
| `SendProgress.WorkLowers` | server/network/asio_channel.cpp:53-232 | every access of a thread, every byte sent and every end of a write lowers a measure of what is left to do |
| `SendProgress.WorkIsBounded` | server/network/asio_channel.cpp:53-232 | from every reachable state, any run without new calls contains at most that much work |
| `SendProgress.SomeoneCanWork` | server/network/asio_channel.cpp:53-232 | until all is quiet, some thread or the socket can go on: no deadlock on the spin lock, the flag or a write |
| `SendProgress.ComesToRest` | server/network/asio_channel.cpp:53-232 | the work left can be done without a failure, and doing it ends quiet |
| `SendProgress.StuckIsQuiet` | server/network/asio_channel.cpp:53-232 | a run that can go no further is quiet |
| `SendProgress.EveryRunComesToRest` | server/network/asio_channel.cpp:53-232 | every run of the senders can be carried on to quiet, and however it is carried on without calls the work is bounded |
| `SendClosing.ClosesIff` | server/network/asio_channel.cpp:79-81 | a channel is closed by an event exactly if it was, or by a close from outside, a send over the limit or a failed write |
| `SendClosing.ClosedForGood` | server/network/asio_channel.cpp:55 | from every reachable closed state: it stays closed, what was accepted stays in order, and what is accepted yet are messages that sends had in hand when it closed, each at most once |
| `SendClosing.ClosedTakesNothing` | server/network/asio_channel.cpp:55 | with no send under way, a closed channel accepts nothing in any run |
| `EndToEnd.PackedStream` | server/network/asio_channel.cpp:222-231 | the accepted buffers joined are the stream of the packed messages |
| `EndToEnd.QueuedFit` | server/network/asio_channel.cpp:195 | a frame that passed the queue limit is within the frame limit of the parser |
| `EndToEnd.QuietDelivery` | server/network/asio_channel.cpp:53-264 | once all is quiet without error, a receiver that has read everything has exactly the frames that left the queue, and nothing else buffered |
| `EndToEnd.EventualDelivery` | server/network/asio_channel.cpp:53-264 | every run without a failed write can be carried on without calls or failures until all is quiet, and then the receiver has all accepted frames exactly when each is at most 65536 bytes and no thread was left waiting |
| `EndToEnd.Delivery` | server/network/asio_channel.cpp:53-264 | for every interleaving of senders, batching and cutting at the receiver, what is delivered is the command and payload of the first k accepted frames, and of all of them once all is written and read |
| `Sessions.IndexStep` | server/game/game_server.cpp:141-178 | every handler keeps channels, strands, entities and database ids in agreement |
| `Sessions.ClosedStaysClosed` | server/game/game_server.cpp:156-178 | after a close nothing is ever posted for that channel again |
| `Sessions.LogoutIsLast` | server/game/game_server.cpp:156-229 | for every run with a close of c: what is posted for c is what was posted before plus the logout save with the close-time state if one is owed, no logout save came before, and what executes is a prefix of this |
| `Sessions.GameServer.CollectSaves` | server/game/game_server.cpp:359-382 | the loop over the map collects exactly one save per channel with id, entity and strand, for every iteration order |
| `Sessions.OwnedStep` | server/game/handlers/player_handlers.cpp:130-150 | each event leaves mapped entities alive and unshared exactly when it is not a login given an id bound to another channel |
| `Sessions.SessionsConsistent` | server/game/game_server.cpp:141-178 | in every run channels and strands coincide and both other maps are within them; mapped entities are alive and no two channels share one at every point of the run exactly when no login is given an id already bound |
| `Sessions.LoginOrphans` | server/game/handlers/player_handlers.cpp:146-150 | a completed login leaves behind exactly the entity it replaces, and takes over one whose id it is given |
| `Sessions.NoOrphansIff` | server/game/handlers/player_handlers.cpp:100-150 | at every point of a run every live player entity has its channel to itself, exactly when no event shares an id, replaces an entity or closes a channel whose entity has the id zero |
| `Sessions.OrphansOnlyByRelogin` | server/game/handlers/player_handlers.cpp:100-150 | while logins get ids that are not zero and not a live player's, the live player entities without a channel are exactly those replaced by a login on their channel; there are none exactly when no login completes on a channel that still has an entity |
| `Sessions.UnderwayStep` | server/game/handlers/player_handlers.cpp:56-150 | only a login request adds to the logins of a channel under way on its strand, in a callback or as its entity, and a login that replaces an entity needs two of them |
| `Sessions.OneLoginEach` | server/game/handlers/player_handlers.cpp:56-150 | in every run in which no channel asks to log in more than once, no login replaces an entity, and no live player entity is without its channel while ids are fresh |
| `Sessions.FewEntitiesAreSafe` | server/game/ecs/entity.cpp:14-22 | in runs that create at most 2^32 entities no id is shared, and in runs that create fewer only such a login leaves an entity behind |
| `Sessions.SharedEntity` | server/game/ecs/entity.cpp:17 | a run with one creation more in which two channels have the same entity |
| `Sessions.ZeroEntity` | server/game/game_server.cpp:242-243 | a run that leaves an entity behind without a second login: it has the id zero, which a close does not destroy |
| `Sessions.GameServer.constructor` | server/game/game_server.hpp:91-127 | a new server is at the start of a run |
| `Sessions.GameServer.OnAccept` | server/game/game_server.cpp:141-146 | the handler leads where the run with one more accept leads: a fresh channel with a strand |
| `Sessions.GameServer.HandleLogin` | server/game/handlers/player_handlers.cpp:56-66 | one more login: its query is posted on the strand, nothing without one |
| `Sessions.GameServer.OnTaskRun` | server/game/handlers/player_handlers.cpp:73-100 | one more database task: a login's query hands its record to the io thread |
| `Sessions.GameServer.OnClose` | server/game/game_server.cpp:156-229 | one more close: all indexes erased, the logout save posted if owed, the entity destroyed unless its id is zero |
| `Sessions.GameServer.ServerIsConsistent` | server/game/game_server.cpp:141-178 | what holds of every run holds of the server object, whatever handlers were called on it |
| `Sessions.GameServer.OnLoginDone` | server/game/handlers/player_handlers.cpp:100-167 | one more login callback: an entity with the record is bound to the channel, unless it closed or there is no record; the client of an open channel is told which, with the row's id or else the new entity's, and the map |
| `Sessions.GameServer.HandleKill` | server/game/handlers/player_handlers.cpp:283-324 | one more kill, whose effect SessionState.KillEffect states |
| `Sessions.GameServer.FlushPlayers` | server/game/game_server.cpp:344-397 | one more flush: the collected saves are posted, whose content SessionState.SavesWhatWasShown states |
| `SessionState.KillEffect` | server/game/handlers/player_handlers.cpp:283-324 | the target is unbound and its entity destroyed, the attacker and everybody else keep theirs alive; nothing changes when either entity is missing |
| `SessionState.LoginEffect` | server/game/handlers/player_handlers.cpp:100-150 | a completed login gives its channel a live entity that carries the record it read, and the record's row; other sessions keep their entities, rows and states; any other callback changes nothing |
| `SessionState.CloseEffect` | server/game/game_server.cpp:156-243 | a close takes its channel out of every index and destroys its entity unless the id is zero; other sessions keep theirs |
| `SessionState.SpawnEffect` | server/game/ecs/entity.cpp:14-22 | an entity gets the next 32-bit id and becomes active, and nothing else changes |
| `SessionState.RunEffect` | server/game/handlers/player_handlers.cpp:73-101 | a query hands its record back for the channel that asked, a save hands on nothing, and each task runs once |
| `SessionState.SavesWhatWasShown` | server/game/game_server.cpp:182-228 | in every run that shares no id, a flush and a close save, under the row the channel's logins named, the state last reported since the login or else the record it read; a flush changes nothing else |
| `SessionState.LooksUpWhatWasAsked` | server/game/handlers/player_handlers.cpp:56-74 | in every run the names looked up on a channel's strand are those its client gave while the channel was open, in order |
| `DbPool.TakeFront` | server/db/db_connection.cpp:104-106 | taking the front index keeps free and held a partition |
| `DbPool.GiveBack` | server/db/db_connection.cpp:109-113 | giving an index back keeps them a partition |
| `DbPool.DbConnectionPool.Acquire` | server/db/db_connection.cpp:97-107 | hands out the front index, or an invalid handle when none is free; free and held indices stay a partition |
| `DbPool.DbConnectionPool.Destroy` | server/db/db_connection.cpp:13-15 | a valid handle gives its index back once; the partition is kept |
| `DbPool.DbConnectionPool.MoveConstruct` | server/db/db_connection.cpp:17-21 | the index changes hands without passing through the queue; the source is left invalid |
| `DbPool.DbConnectionPool.MoveAssign` | server/db/db_connection.cpp:23-30 | the target's index is released, the source's is taken over, self-assignment changes nothing; the partition is kept |
| `DbPool.StarvationBound` | server/db/db_connection.cpp:97-107 | over all runs of workers holding at most one connection, none ever finds the queue empty exactly when there are no more workers than connections |
| `DbPool.DbConnectionPool.Open` | server/db/db_connection.cpp:43-85 | opens exactly when every connection succeeds, then with all indices free in order; otherwise closed and empty; an open pool is left as it is |
| `DbPool.PoolIsPartitioned` | server/db/db_connection.cpp:97-115 | in every run of posting, starting, taking, returning, ending and joining, free and held indices partition the pool until it is closed |
| `DbPool.StopClosesWholePool` | server/game/game_server.cpp:119-122 | in every run, when the pool is closed no connection is out and every index is free, and afterwards none can be taken or returned |
| `DbPool.SizingPreventsStarvation` | server/game/game_server.cpp:24-31 | with as many workers as the server starts for a configured size of either sign, that is exactly when the size is at least one; it then starts as many as can be served, otherwise one |
| `PlayerDao.DecidingIsFirst` | server/db/dao/player_dao.cpp:153-164 | the deciding attempt is the first that is not a retryable error |
| `PlayerDao.SavedIff` | server/db/dao/player_dao.cpp:145-191 | a save succeeds exactly when some attempt does after only retryable failures |
| `PlayerDao.FoundIff` | server/db/dao/player_dao.cpp:99-143 | a row is found exactly when some attempt selects it and every earlier one was retried |
| `PlayerDao.Attempt` | server/db/dao/player_dao.cpp:154-162 | each attempt borrows and returns one connection, or gets none in time; on the pool the workers share it is one take and one return |
| `PlayerDao.SaveWithRetry` | server/db/dao/player_dao.cpp:145-168 | the retry loop gives the result of at most three attempts, any of which may get no connection, and returns every connection it borrowed |
| `PlayerDao.FindOrCreate` | server/db/dao/player_dao.cpp:99-143 | the loop returns that row, none when an attempt gets no connection, or raises; it returns every connection it borrowed |
| `PlayerDao.LoginTask` | server/game/handlers/player_handlers.cpp:73-99 | a login hands back a row exactly when some attempt selects it after attempts worth retrying, and none after an exception |
| `PlayerDao.LogoutTask` | server/game/game_server.cpp:195-228 | both updates are applied, or one snapshot with the player's id, name, state, the constant level and experience, failed operation, attempts and error is recorded; none without a sink or after an exception of unknown type |
| `PlayerDao.ResultOf` | server/db/db_connection.hpp:15-20 | errors 2006, 2013, 1213 and 1205 go on to the next attempt; any other error or no connection fails the save, an exception is raised as it is |
| `PlayerDao.FoundOf` | server/db/dao/player_dao.cpp:99-143 | the same errors and an empty select go on to the next attempt; any other error or no connection finds nothing, an exception is raised |
| `Messages.WordsRoundTrip` | common/protocol/protocol_combat.hpp:204-226 | a list of numbers is read back |
| `Messages.FieldRoundTrip` | common/protocol/protocol_base.hpp:11-52 | every field is read back with its size, whatever follows it |
| `Messages.FieldUnique` | common/protocol/protocol_base.hpp:156-169 | a field that was read is written back as the same bytes exactly when a flag byte is zero or one |
| `Messages.FieldStable` | common/protocol/protocol_base.hpp:46-52 | bytes after a field do not change how it is read |
| `Messages.RoundTrip` | common/protocol/protocol_base.hpp:133-169 | a payload of any layout parses back to the same fields, whatever follows it |
| `Messages.ReEncode` | common/protocol/protocol_base.hpp:133-169 | a payload that parses is written back as the bytes it consumed exactly when its flag bytes are zero or one |
| `Messages.TruncationRejected` | common/protocol/protocol_base.hpp:144-169 | a payload cut short anywhere is rejected |
| `Messages.PrefixFree` | common/protocol/protocol_base.hpp:133-169 | no payload of a layout is a proper prefix of another |
| `Packets.ValuesConform` | common/protocol/protocol_base.hpp:41-44 | a message is encodable exactly when its strings and lists are shorter than 2^32 |
| `Packets.ParseSerialize` | common/protocol/protocol_combat.hpp:190-232 | each of the six messages parses back from its bytes, whatever follows them |
| `Packets.SerializeParse` | common/protocol/protocol_base.hpp:150-170 | bytes that parse start with the serialisation of the message, exactly when the flag byte of login_res is zero or one |
| `Packets.TruncatedRejected` | common/protocol/protocol_chat.hpp:62-68 | every proper prefix of a serialised message is rejected |
| `Packets.PacketsPrefixFree` | common/protocol/protocol_chat.hpp:103-121 | no serialised message is a proper prefix of another of its kind |
| `Packets.ReadLpString` | common/protocol/protocol_base.hpp:46-52 | moves the cursor past exactly one length-prefixed string inside the buffer, or fails |
| `Packets.ParseLoginReq` | common/protocol/protocol_base.hpp:144-147 | the chain of reads parses exactly the layout of login_req |
| `Packets.ParseLoginRes` | common/protocol/protocol_base.hpp:165-169 | the chain with one check for the two last numbers parses exactly the layout of login_res |
| `Packets.CombatResultShape` | common/protocol/protocol_combat.hpp:212-231 | the message is rejected exactly when shorter than its item count demands |
| `Packets.ParseCombatResult` | common/protocol/protocol_combat.hpp:212-231 | the loop with its checks parses exactly the layout of combat_result_notify |
| `Packets.ParseChatReq` | common/protocol/protocol_chat.hpp:21-25 | the chain of checked reads parses exactly the layout of chat_req |
| `Packets.ParseChatBroadcast` | common/protocol/protocol_chat.hpp:62-68 | the chain of checked reads parses exactly the layout of chat_broadcast |
| `Packets.ParseChatFilterReq` | common/protocol/protocol_chat.hpp:116-120 | the chain of checked reads parses exactly the layout of chat_filter_req |
| `Packets.WriteLpString` | common/protocol/protocol_base.hpp:41-44 | appends the length word and the string, after whatever fields are already written |
| `Packets.WriteItems` | common/protocol/protocol_combat.hpp:204-207 | appends the count and, in a loop, the items |
| `Packets.SerializeLoginReq` | common/protocol/protocol_base.hpp:137-142 | the pushes write exactly the layout of login_req |
| `Packets.SerializeLoginRes` | common/protocol/protocol_base.hpp:156-163 | the pushes write exactly the layout of login_res |
| `Packets.SerializeChatReq` | common/protocol/protocol_chat.hpp:13-19 | the pushes write exactly the layout of chat_req |
| `Packets.SerializeChatBroadcast` | common/protocol/protocol_chat.hpp:52-60 | the pushes write exactly the layout of chat_broadcast |
| `Packets.SerializeChatFilterReq` | common/protocol/protocol_chat.hpp:108-114 | the pushes write exactly the layout of chat_filter_req |
| `Packets.SerializeCombatResult` | common/protocol/protocol_combat.hpp:198-210 | the loop writes exactly the layout of combat_result_notify |
| `Packets.Layout` | common/protocol/protocol_base.hpp:133-163 | the bytes of each of the six messages, field by field |
| `Guilds.WithoutKeeps` | server/game/handlers/guild_handlers.cpp:105-106 | removing a member keeps all others and leaves no duplicates |
| `Guilds.CreateKeeps` | server/game/handlers/guild_handlers.cpp:28-46 | creating keeps the two maps consistent exactly when it does not meet an id in use |
| `Guilds.JoinKeeps` | server/game/handlers/guild_handlers.cpp:60-83 | joining keeps them consistent |
| `Guilds.LeaveKeeps` | server/game/handlers/guild_handlers.cpp:92-111 | leaving keeps them consistent |
| `Guilds.LeaveUndoesJoin` | server/game/handlers/guild_handlers.cpp:60-111 | joining and leaving restores the whole index |
| `Guilds.LeaveUndoesCreate` | server/game/handlers/guild_handlers.cpp:28-111 | creating and leaving restores all but the spent id, exactly when the id was not in use |
| `Guilds.MemberCount` | server/game/handlers/guild_handlers.cpp:28-111 | the member lists together are as long as the channel map is large |
| `Guilds.IdsAreSequential` | server/game/handlers/guild_handlers.cpp:37 | over every run ids are given out from 1 upward, wrapping at 2^32, and only ids given out are in use |
| `Guilds.IdsNeverReused` | server/game/handlers/guild_handlers.cpp:37 | no id is given out twice exactly when at most 2^32 guilds are created |
| `Guilds.EveryRun` | server/game/handlers/guild_handlers.cpp:28-111 | a channel is mapped to a guild exactly when it is in its member list, lists are non-empty and duplicate-free, at every point of a run, exactly when no creation overwrites a guild |
| `Guilds.FewCreationsAreSafe` | server/game/handlers/guild_handlers.cpp:28-111 | with at most 2^32 creations that always holds, and the counts add up |
| `Guilds.OneCreationTooMany` | server/game/handlers/guild_handlers.cpp:37-40 | a run with one creation more after which the maps disagree |
| `Guilds.Remove` | server/game/handlers/guild_handlers.cpp:105-106 | the loop keeps the other members in order |
| `Guilds.GuildRegistry.HandleCreate` | server/game/handlers/guild_handlers.cpp:28-46 | the registry is where its requests lead; the reply carries the next id in order, or the refusal |
| `Guilds.GuildRegistry.HandleJoin` | server/game/handlers/guild_handlers.cpp:60-83 | likewise; an unknown guild is reported before an existing membership |
| `Guilds.GuildRegistry.HandleLeave` | server/game/handlers/guild_handlers.cpp:92-117 | likewise; an empty guild goes, and a channel in no guild gets no reply |
| `Guilds.GuildRegistry.RegistryIsConsistent` | server/game/handlers/guild_handlers.cpp:28-111 | a registry that has created at most 2^32 guilds, whatever requests it handled, is consistent and fully counted |
| `Guilds.CreateEffect` | server/game/handlers/guild_handlers.cpp:28-46 | a channel in no guild founds one with its name, description, itself as master and only member, under the next id; one in a guild changes nothing |
| `Guilds.JoinEffect` | server/game/handlers/guild_handlers.cpp:60-83 | a channel in no guild becomes the last member of an existing one; nothing else changes |
| `Guilds.LeaveEffect` | server/game/handlers/guild_handlers.cpp:92-111 | a member leaves its guild to the others in their order, and the last one ends it; nothing else changes |
| `Guilds.GuildOrigin` | server/game/handlers/guild_handlers.cpp:37-40 | in every run each guild was founded by a request that gave it its name, description and master, and none since changed them |
| `MapThreads.PopTop` | server/game/threading/map_thread.hpp:37-39 | a top of the queue has the least priority number, and the rest stays |
| `MapThreads.DrainConserves` | server/game/threading/map_thread.cpp:95-106 | every task queued or added while one ran is run exactly once |
| `MapThreads.PriorityRespected` | server/game/threading/map_thread.cpp:95-106 | a task runs before one with a smaller number only if that one was added after it was taken |
| `MapThreads.QuietDrainSorts` | server/game/threading/map_thread.cpp:95-106 | with no arrivals all run sorted by priority number |
| `MapThreads.DestroyKeeps` | server/game/threading/map_thread_manager.cpp:34-45 | destroying a map keeps the placement in agreement exactly when nobody is on it |
| `MapThreads.AddKeeps` | server/game/threading/map_thread_manager.cpp:59-72 | adding a player to a map keeps it exactly when the player is recorded on no other map |
| `MapThreads.RemoveKeeps` | server/game/threading/map_thread_manager.cpp:74-88 | removing a player from a map keeps it exactly when the player is recorded on no other map |
| `MapThreads.MoveKeeps` | server/game/threading/map_thread_manager.cpp:90-112 | moving keeps it exactly when the player is not on a third map or, if the target does not exist, not on the named origin |
| `MapThreads.MoveIsRemoveAdd` | server/game/threading/map_thread_manager.cpp:74-112 | between existing maps a move is a removal followed by an addition |
| `MapThreads.EveryRun` | server/game/threading/map_thread_manager.cpp:15-112 | record and per-map sets agree at every point of a run exactly when every operation met its condition |
| `MapThreads.CountsAddUp` | server/game/threading/map_thread_manager.cpp:121-129 | then the player counts of all maps add up to the number of players placed |
| `MapThreads.MapThread.ProcessPackets` | server/game/threading/map_thread.cpp:76-87 | with packets arriving whenever the lock is free, handled, current and queued packets always make up all packets ever added, in order; in the end all are handled |
| `MapThreads.MapThread.ProcessTasks` | server/game/threading/map_thread.cpp:95-106 | with tasks arriving whenever the lock is free, each task taken is a top of the queue at that moment, until all ever added have run |
| `MapThreads.MapThread.AddPlayer` | server/game/threading/map_thread.cpp:108-118 | the player joins the set, the count is its size, and the entity is listed on the map |
| `MapThreads.MapThread.RemovePlayer` | server/game/threading/map_thread.cpp:120-126 | the player leaves the set and the count is its size; the entity stays listed |
| `MapThreads.MoveBack` | server/game/threading/map_thread_manager.cpp:90-112 | a move and the move back restore players and record, and list one more entity on both maps |
| `MapThreads.ListedForGood` | server/game/threading/map_thread.cpp:113-126 | an entity listed on a map stays listed until the map is destroyed, whatever its player does |
| `MapThreads.MapThreadManager.CreateMapThread` | server/game/threading/map_thread_manager.cpp:15-32 | the manager is where its operations lead: a new map is empty, an existing one is kept |
| `MapThreads.MapThreadManager.DestroyMapThread` | server/game/threading/map_thread_manager.cpp:34-45 | likewise: the map goes, the record of its players stays |
| `MapThreads.MapThreadManager.AddPlayerToMap` | server/game/threading/map_thread_manager.cpp:59-72 | likewise: both records change if the map exists, and no other map's thread |
| `MapThreads.MapThreadManager.RemovePlayerFromMap` | server/game/threading/map_thread_manager.cpp:74-88 | likewise: both records change if the map exists, and no other map's thread |
| `MapThreads.MapThreadManager.MovePlayerToMap` | server/game/threading/map_thread_manager.cpp:90-112 | likewise: leaves the origin if it exists, joins the target with a new entity and its record only if that exists |
| `MapThreads.MapThreadManager.ManagerAgrees` | server/game/threading/map_thread_manager.cpp:59-112 | a manager all of whose operations met their condition has every player where it says, and counts that add up |
| `MapThreads.MapThreadManager.GetMapPlayerCount` | server/game/threading/map_thread_manager.cpp:121-129 | the size of the map's set, zero for an unknown one; after sound operations the number of players recorded on it |
| `MapThreads.CreateEffect` | server/game/threading/map_thread_manager.cpp:15-32 | a map that did not exist is there and empty, an existing one is untouched |
| `MapThreads.AddThenRemove` | server/game/threading/map_thread_manager.cpp:59-88 | added, a player is on the map, recorded and listed there; removed again, players and record are as before |

## Left out

- SendProtocol.EveryRun: relaxed memory order is not modelled; accesses are sequentially
  consistent, and the unlocked test for an empty queue in the completion handler is one step.
- SendProgress.EveryRunComesToRest: that threads are scheduled and the socket goes on is up to the
  system; a message can still stay queued, exactly as `SendProtocol.EveryRun` says.
- Channel.AsioChannel.OnRead: the 1024-byte read buffer is not modelled, a read may be of any
  size; the frame callback is taken to be set and not to touch the channel.
- The posted socket shutdown and the close callbacks of a channel.
- Crc32.Compute: the table is built on each call instead of once.
- DbPool.DbConnectionPool.Acquire: the five-second wait is one test for a free index.
- DbPool.SizingPreventsStarvation: resizing to a negative pool size throws in the server; here such a
  pool has no connections.
- MapThreads.MapThread.AddPlayer: `max_players` is not enforced by the code and not modelled; the
  count is not truncated to 32 bits.
- MapThreads.MapThread.ProcessTasks: which of several tasks with the same number goes first is
  left open, as for a priority queue.
- MapThreads.MapThreadManager.MovePlayerToMap: the entity created for the target is a parameter.
- Packets.ParseCombatResult: reserving room for the announced number of items is left out, so a
  failure to allocate it is not modelled.
- Codecs whose parsers are not the inverse of their serialisers or do not check every read
  (map_objects_update, guild_member_list, guild_info, attack_res, chat_system_message).
- Idle, ping and statistics timers; logging; sockets; MySQL, Redis, JSON and the failure sink's
  files, which appear only as outcomes.
- A backpressure close from inside a broadcast that holds the server's mutex.
- The login path without a database, `player_map_mapping_` of the game server, channel ids that
  wrap, and the order between two sessions of the same player, whose strands differ.
- Shutdown of the listener, the timers and the map threads.
- The guild's master still being a member and members still being connected: the code keeps
  neither.
- Movement, collision, bounds and monster behaviour; component removal; batch forms of the entity
  manager; the memory pool and `packet_buffer`.
