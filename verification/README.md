# bytekv: a Dafny model

bytekv is a single-threaded key-value store with expiry, an append-only file (AOF) for durability, and
compaction of that file by a forked child. This project models six connected parts and proves what
they promise, with crash recovery of the two-table store at the top:

- **The AOF at work** (`Rewrite`, `RewriteProofs`, `Faithfulness`, `Recovery`, `Durability`, `Calmness`,
  `Aborts`, `Compaction`, `AofServer`). A state machine over the bytes on disk: commands, unlogged expiry,
  the passing of time, per-tick and per-command flushing, fork, every step of the child, diff overflow and
  abort, reaping, each sub-step and each failure exit of finalizing, killed processes and power losses at
  any point, also within the write of a record, and recoveries. `Server` is the code of `src/aof.c` with
  its fields updated in place, each method proved equal to its step of the machine.
- **Records, log files and loading** (`Bytes`, `Codec`, `Serializer`, `Loader`, `LogFile`, `Transfer`,
  `Log`). The binary printer and parser, the loader with its reused record buffer, torn-tail recovery,
  and replay as a fold over records with its skipping of elapsed ones.
- **What the tables hold** (`Store`, `History`). The operations, and the tables told from the log alone: the
  last writes of each key.
- **Passing deadlines and missing records** (`Aging`). Lived histories with unlogged expiry and unlogged
  commands in them, and exactly when a later reload shows what was lived.
- **CRC-64-Jones** (`ShiftRegister`, `Crc64Steps`, `Crc64Bits`, `Crc64Table`, `Crc64`). The table-driven
  loop against bit-at-a-time reflected division, that against plain long division, and the burst bound
  from the laws of the step.
- **The hash table** (`HashTable`). Linked nodes in a bucket array, for any hash function, refining a map.
- **The expiry store** (`Expiry`, `Database`). Two hash tables as one timed map; lazy expiry,
  the sampling sweep and the active-expiry loop.
- **Connections** (`Framing`, `Connection`, `Closing`, `Client`). Frame reassembly and the compacting write queue
  under every chunking, every partial write and every refusal.

`Backoff` is the delay after failed rewrites, `Numbers` what several parts share.

How the outside enters: clocks, replies of commands, outcomes of system calls, the child's fate, the
iteration order, sampled buckets and crash points are parameters or arbitrary choices, so every theorem
holds for all of them. Values that the C code reads from a wall clock are functions from the number of
the reading to a time.

The main theorem is `Durability.NamedFileShowsTables`. Over runs of commands, logged or (because their
record does not fit) not, expiry, rewrites, failures, kills and power losses: a reload at any later time
shows exactly what is alive of the live tables, provided every command since the fork of the last completed
rewrite is *harmless*:

- a logged one if replay either skips it and its key could not be seen then anyway, or runs it and it does
  not rest on an entry that replay has lost;
- an unlogged one if it makes no difference that can be seen at the time of the reload.

`Durability.ReloadsExactlyIff` shows that this condition is also necessary, `Durability.HarmStaysWithKeys`
how far the harm goes when it fails, `Durability.UnloggedLosesLater` that it can cost the flushed record of
an unrelated command, and `Compaction.RenameMends` that a completed rewrite ends it. Runs in which no logged
deadline passes and nothing is changed without being logged are always harmless, and there the tables come
back unchanged (`Calmness.NamedFileRebuildsTables`).

A run is *sound* if each reload after a crash in it was such a harmless one, with no deadline passing while
it was under way. The wall clock does not go backwards.

Where the repository's README and its code disagree, the model follows the code:

- The README says every command answered `+OK` is on disk. The handlers ignore the append's result
  (`src/command.c:113-114`), so a record too large for the record buffer is applied, acknowledged and
  lost: `Durability.SurvivesReloadIffFits`. It can take later, logged and flushed commands with it:
  `Durability.UnloggedLosesLater`. And no rewrite can complete while it lives: `Compaction.CanCompleteIff`.
- The README says that `pertick` bounds the loss to about a tick. A restart clears the dirty flag without
  flushing what it read, so under `pertick` and `no` a kill followed much later by a power loss can lose
  records acknowledged long before: `Durability.ClearFlagIff`, `Durability.KilledThenLost`.
- The README's picture of the deadline table says CLOCK_MONOTONIC; the code stores and compares wall-clock
  milliseconds.
- The README says a stale temporary file is cleaned up at the next start. No code does that; the name
  holds the process id, and a restart forgets the old one.

## Model

| member | source | states |
|---|---|---|
| `Bytes.BigRoundTrip` | src/aof.c:142-157 | writing a number that fits in n big-endian bytes and reading it back gives the number |
| `Bytes.BigInverse` | src/aof.c:262-275 | reading n big-endian bytes and writing the number gives the bytes back |
| `Bytes.BigTop` | src/aof.c:262-275 | the first byte of a number weighs 256 to the power of the number of bytes behind it |
| `Bytes.BigDigit` | src/aof.c:142-157 | byte i of n holds the digit of weight 256 to the power n - 1 - i |
| `Bytes.Int64RoundTrip` | src/aof.c:272-274 | every signed 64-bit deadline survives two's complement and big-endian conversion |
| `Bytes.UnsignedIsModulo` | src/aof.c:155-157 | the 64-bit representation of a deadline is its value modulo 2 to the power 64 |
| `ShiftRegister.RunXor` | src/crc64.c:175-183 | a register with linear steps is linear over xor of seeds and messages of one length |
| `ShiftRegister.RunInjective` | src/crc64.c:175-183 | with a one-to-one step, different states stay different over any message |
| `ShiftRegister.RunDetectsBurst` | src/crc64.c:175-183 | for any lawful register, changing a word-sized window at any position of a message of any length changes the result |
| `Crc64Bits.JonesLawful` | src/crc64.c:44-183 | the laws the burst bound needs: the byte step is linear and injective, and up to eight bytes pack into a state without loss |
| `Crc64Bits.StepIsBijection` | src/crc64.c:44-183 | the byte step is a bijection on 64-bit states: injective, and every state has a predecessor |
| `Crc64Bits.EightBytesInjective` | src/crc64.c:175-183 | from any state, different strings of one length up to eight bytes lead to different states |
| `Crc64Bits.CrcIsReversedRemainder` | src/crc64.c:44-183 | the reflected checksum read backwards is the state of long division by 0xad93d23594c935a9, for every seed and message |
| `Crc64Table.EntryIsByteStep` | src/crc64.c:44-173 | all 256 table entries are eight bit steps of their index |
| `Crc64.TableStepIsByteStep` | src/crc64.c:177-180 | one table look-up and shift is eight bit steps of the state with the byte mixed in |
| `Crc64.Compute` | src/crc64.c:175-183 | the table-driven loop computes the bitwise checksum for every seed and message |
| `Crc64.CrcLinear` | src/crc64.c:175-183 | with seed 0 the checksum is linear over xor of messages of one length |
| `Crc64.CrcConcat` | src/crc64.c:175-183 | the checksum of a concatenation continues from that of its first part |
| `Crc64.BurstDetected` | src/crc64.c:175-183 | changing a message only within eight consecutive bytes always changes its checksum |
| `Crc64.BitBurstDetected` | src/crc64.c:175-183 | so does any change within 64 consecutive bits at any bit offset, across up to nine bytes, in the order the checksum takes the bits |
| `Crc64.CheckValue` | src/crc64.c:12 | the checksum of "123456789" is 0xe9c6d914c4b8d9ca |
| `Store.Apply` | src/aof.c:293-315 | every operation keeps "a deadline belongs to a key and is positive"; a failing one changes nothing |
| `Log.ReplayIsLive` | src/aof.c:277-310 | replay with no elapsed record equals the history as the server lived it |
| `Log.LiveAppend` | src/aof.c:378-425 | two logs that reach the same tables reach the same tables and verdict after any common continuation |
| `Log.ReplayExactIff` | src/aof.c:277-278 | a reload at T rebuilds the live tables at every crash point of the history if and only if no logged deadline has passed |
| `Log.UnspoiltKeysAgree` | src/aof.c:277-310 | an elapsed record affects only its own key: as far as replay gets, all other keys have their live value and deadline |
| `Log.StopsOnlyAtSpoiltKey` | src/aof.c:299-310 | a replay of a genuine history that stops early stops at a key that had an elapsed record before |
| `Log.ElapsedSetexStopsReplay` | src/aof.c:420-422 | SETEX k, DEL k, SET j reloaded after the deadline stops at the DEL and loses j |
| `Log.ElapsedExpireRevivesKey` | src/aof.c:277-278 | SET k, EXPIRE k reloaded after the deadline brings k back with no deadline |
| `Log.SnapshotRight` | src/aof.c:484-499 | for any clock readings during the child's walk, any order and any later T, replaying the snapshot at T gives exactly the forked state still alive at T |
| `History.LastWritesCount` | src/db.c:22-68 | after any lived history a key has a value if and only if a SET or SETEX of it comes after its last DEL, and that of the last one; and a deadline if and only if a SETEX or EXPIRE comes after its last DEL or PERSIST, and that of the last one |
| `History.SucceedsIff` | src/db.c:22-68 | SET and SETEX always succeed, DEL exactly if the log gave the key a value, EXPIRE if moreover its deadline is positive, PERSIST exactly if the log gave it a deadline; a command that fails changes nothing |
| `History.CommandSeen` | src/command.c:105-174 | after a successful command on a key not past its deadline, GET and TTL answer what the command said |
| `History.OthersUnchanged` | src/command.c:105-174 | GET and TTL of every other key answer as before |
| `History.DeadlineIncluded` | src/db.c:27-34 | a key is answered up to and including the millisecond of its deadline |
| `Codec.OpcodeRoundTrip` | src/aof.c:293-312 | opcodes decode to the operation they encode |
| `Codec.DecodeEncoded` | src/aof.c:131-165 | an encoded record of any opcode and any signed 64-bit deadline, with NUL-free key and value that fit, decodes to the same fields, is accepted by the length checks, and is skipped exactly if its deadline has passed |
| `Codec.EncodedLayout` | src/aof.h:31-47 | every field of an encoded record by offset: checksum, body length, opcode number, key and value length, deadline, key, value |
| `Codec.DecodedIsEncoded` | src/aof.c:257-315 | a body without NULs in key and value that decodes to a record to run is exactly that record's body and its deadline has not passed: unknown opcodes and lengths that do not add up never run |
| `Codec.CStringCuts` | src/aof.c:284-292 | a key or value with a NUL in it is cut there |
| `Serializer.PutBody` | src/aof.c:135-155 | filling the buffer by offset lays out exactly the body; fails exactly if the record does not fit |
| `Serializer.Serialize` | src/aof.c:131-165 | returns -1 exactly if 27 + key + value exceeds 4096, else leaves exactly the encoded record at the front of the buffer |
| `Transfer.ReadExact` | src/util.c:8-23 | under any short and interrupted reads it delivers all bytes asked for or all there are, in order, and touches nothing else; a failed read returns -1 with the bytes that came before it |
| `Transfer.WriteAll` | src/util.c:25-37 | under any short and interrupted writes everything is appended in order; only a faulty device makes it fail, and then a strict prefix was |
| `Transfer.FireAll` | src/util.c:64-69 | calls one after the other, each keeping the time of the last firing, fire exactly as specified |
| `Transfer.FiringsApart` | src/util.c:64-69 | however often it is called, two firings in a row are at least the interval apart |
| `Transfer.FiresWhenDue` | src/util.c:64-69 | and none is missed: a call fires exactly if the interval has passed since the last firing |
| `Loader.EncodeWellFramed` | src/aof.c:131-165 | the header of an encoded record announces its body and carries the checksum the loader computes |
| `Loader.LoadThrough` | src/aof.c:378-425 | the loader runs through the image of any log that replays, reaching the replayed tables at its exact end, whatever follows |
| `Loader.LoadFails` | src/aof.c:419-422 | if a record of the log fails to replay, the loader stops exactly before it |
| `Loader.LoadWithTail` | src/aof.c:378-425 | a log followed by anything that is not a record is replayed, and the loader stops where it ends |
| `Loader.WholeIsWhole` | src/aof.c:378-425 | the number of records lying wholly before a cut: their image ends at or before it and the next record's after it |
| `Loader.TornTail` | src/aof.c:378-441 | for every log and every cut of its image, exactly the records wholly before the cut are replayed, `valid_end` is their exact end, and the end is clean only if nothing is left over |
| `Loader.ReloadTruncated` | src/aof.c:427-441 | for every byte string at all, loading the file truncated at `valid_end` with the same buffer and clock gives the same tables and record count and loses no byte |
| `Loader.ReloadElsewhere` | src/aof.c:427-441 | the same with any other buffer contents and any other clock that judges no deadline differently, if every record read has its fixed fields |
| `Loader.DamageDetected` | src/aof.c:408-418 | damage to the stored checksum, or within eight consecutive bytes of the body, makes stored and computed checksum differ |
| `Loader.DamageStopsReplay` | src/aof.c:408-418 | such damage always stops replay at that record with the tables of the records before it |
| `LogFile.HeaderAccepted` | src/aof.c:69-128 | a written file header passes the header check |
| `LogFile.HeaderLayout` | src/aof.c:69-89 | every field of a written file header by offset |
| `LogFile.HeaderAcceptedIff` | src/aof.c:94-128 | the headers accepted are exactly those with the magic, version 1, any flags and creation time, and their checksum |
| `LogFile.HeaderDamageRefused` | src/aof.c:94-128 | a change within eight consecutive bytes of the checked fields, or in the stored checksum, is refused |
| `LogFile.StartOnCut` | src/aof.c:355-441 | start-up on a log file cut anywhere: fresh if empty, refused inside the file header, else exactly the whole records before the cut |
| `LogFile.TakeFrame` | src/aof.c:379-418 | header, body and checksum read through the reused buffer give the specified frame and buffer |
| `LogFile.Load` | src/aof.c:355-445 | the loading loop computes the specified recovery for every file |
| `Aging.RepeatableExactly` | src/aof.c:277-310 | on the living part of the tables, replay at T repeats a lived record exactly if and only if the record is repeatable: skipped and its key unseen, or run and not resting on a lost entry |
| `Aging.ReloadExactIff` | src/aof.c:277-310 | a snapshot and the records of the commands lived since, with any unlogged commands and expiry among them, reload at T to what is alive at every moment if and only if every logged command is repeatable and every unlogged one invisible at T |
| `Aging.UntroubledKeysShow` | src/aof.c:277-310 | as far as a reload gets, every key without a harmful command, logged or not, shows exactly what the running server would have shown |
| `Aging.StopsOnlyAtTroubledKey` | src/aof.c:420-422 | a reload that stops early stops at a record of a key that had a harmful command then or before |
| `RewriteProofs.MutateSolid` | src/aof.c:234-253 | a command keeps the named file, its flushed part and the diff in step with the history |
| `RewriteProofs.ChildEmitSolid` | src/aof.c:484-501 | so does each key the child handles, be it written, skipped as dead or refused as too large, interleaved with anything the parent does |
| `RewriteProofs.FinalRenameSolid` | src/aof.c:602-606 | so does the rename: from one moment to the next the name means the complete, durable new file instead of the old log |
| `RewriteProofs.StepSolid` | src/aof.c:451-696 | so does every event short of a crash, with all its failure exits and with commands that go unlogged |
| `RewriteProofs.DiffGrows` | src/aof.c:195-221 | a record is either added to the diff, whose capacity stays if it suffices and at least doubles within the maximum if not, or aborts the rewrite, exactly when it would pass the maximum |
| `Faithfulness.MutateFaithful` | src/aof.c:234-253 | a logged command keeps the records of the named file, and of the child's, in step with the commands lived |
| `Faithfulness.UnloggedFaithful` | src/command.c:105-115 | so does a command that goes unlogged |
| `Faithfulness.ExpiryFaithful` | src/db.c:27-34 | expiry, which logs nothing, does so too, whatever dead keys it removes |
| `Faithfulness.ChildEmitFaithful` | src/aof.c:484-499 | the child's file captures the visited part of its snapshot at every later time, whatever the clock read when each key was handled |
| `Faithfulness.RenameFaithful` | src/aof.c:602-606 | snapshot at fork then diff means the same tables as the old log at every later time |
| `Faithfulness.StepFaithful` | src/aof.c:451-696 | every event short of a crash does so |
| `Recovery.RefusedIff` | src/aof.c:355-374 | in every reachable state, start-up after a crash refuses the file if and only if the cut falls within its header, begins anew exactly if nothing is left, and neither can happen once a record has been flushed |
| `Recovery.KillKeeps` | src/server.c:116-172 | a killed process, even within the write of a record, loses nothing; its successor satisfies the invariant and has flushed nothing |
| `Recovery.PowerLossKeeps` | src/aof.c:355-445 | after a power loss at any cut past the flushed part, an empty file included, the next process satisfies the invariant with a history that includes everything flushed |
| `Recovery.InitOk` | src/server.c:116-172 | a fresh server with a new file satisfies the invariant |
| `Recovery.RunKeeps` | src/aof.c:234-696 | so does every sound run from it, unlogged commands included |
| `Durability.NamedFileShowsTables` | src/aof.c:234-696 | after every sound run, with any commands logged or not, loading the file under the AOF name at any later time uses every byte and shows exactly what is alive of both live tables, if every command since the fork of the last completed rewrite is harmless |
| `Durability.ReloadsExactlyIff` | src/aof.c:277-310 | in every reachable state, all moments since the fork of the last completed rewrite reload exactly at a later time if and only if every logged command since then is repeatable and every unlogged one invisible |
| `Durability.HarmStaysWithKeys` | src/aof.c:277-310 | in every reachable state: if the reload of the named file gets through, every key without a harmful command comes back exactly; if it stops early, it stops at a key that had one |
| `Durability.UnloggedLosesLater` | src/aof.c:299-310 | a value too large to be logged, a logged DEL of it and a logged, flushed SET of another key: the reload stops at the DEL, loads nothing and cuts off the SET |
| `Durability.AnyCrashRecovers` | src/aof.c:355-445 | at every point of every sound run and for every cut past the flushed part: refused exactly within the header, fresh if empty, else what is alive of some moment of the history that includes every flushed record |
| `Durability.FlushedStays` | src/aof.c:225-253 | the records flushed by now keep their places in the history and stay flushed through every later sound run of commands logged or not, rewrites, failures, kills and power losses |
| `Durability.AlwaysIsDurable` | src/aof.c:225-253 | under the always policy a command whose append succeeded keeps its place through every later sound run, and no power loss at its end followed by a harmless reload takes it away |
| `Durability.TickFlushes` | src/aof.c:451-468 | a tick that finds the log dirty puts all of it on the device and clears the flag, if the device obliges; otherwise nothing changes |
| `Durability.TickIsDurable` | src/aof.c:451-468 | under the per-tick policy every record appended before a successful tick keeps its place through every later sound run, and no power loss at its end followed by a harmless reload takes it away |
| `Durability.ExpiryRemoves` | src/db.c:27-34 | expiry takes exactly the keys it names out of both tables, touches no file, and no reader can tell |
| `Durability.WorldMoves` | src/server.c:39-48 | the clock goes to where it says, and a child that dies has failed |
| `Durability.ClearFlagIff` | src/server.c:120 | in every reachable state with a clear dirty flag, no power loss can lose a record if and only if a flush has happened since the last start or the file was fully flushed when it was read then |
| `Durability.KilledThenLost` | src/aof.c:441-444 | command, kill, restart, power loss: the flag was clear and the record is gone |
| `Durability.SurvivesReloadIffFits` | src/command.c:105-115 | after harmless commands, a repeatable command that made a visible difference shows after a reload if and only if its record fits the record buffer |
| `Calmness.CalmRunSound` | src/aof.c:277-278 | a run in which no logged deadline passes and no command changes the tables unlogged is sound, whatever else it contains |
| `Calmness.NamedFileRebuildsTables` | src/aof.c:234-696 | through every run in which no logged deadline passes (so expiry finds nothing to remove) and no command changes the tables unlogged, with all rewrites, failures, kills and power losses, loading the file under the AOF name rebuilds exactly both live tables |
| `Aborts.AbortsExactlyOnOverflow` | src/aof.c:195-221 | in every reachable active state the diff is exactly the records since the fork, within capacity and maximum, and the next record aborts exactly if it would pass the maximum |
| `Aborts.AbortedNeverFinalized` | src/aof.c:673-686 | from any reachable aborting state, along every run up to the next fork or crash, however the child ends, the AOF name keeps its file |
| `Aborts.AbortedFileNeverNamed` | src/aof.c:673-686 | the file of an aborted rewrite never becomes the log, by this rewrite or any later one, in any run without crash or `waitpid` failure |
| `Aborts.FailureDiscards` | src/aof.c:627-631 | after every failure exit the server is idle with no child, no buffer and no temporary name, and the live file is as it was, under its name and with the append descriptor on it |
| `Compaction.WalkEnds` | src/aof.c:484-501 | the child's walk can be carried to its end if everything alive fits |
| `Compaction.RewriteCompacts` | src/aof.c:470-632 | from every reachable idle state in which everything alive fits, a run completes a rewrite; the AOF name then means a flushed file with exactly one record for each living key, and the tables are as they were |
| `Compaction.UnfitValueBlocks` | src/aof.c:492-497 | a living value whose record does not fit makes every rewrite fail, in every run that leaves its key alone, for as long as it lives |
| `Compaction.CanCompleteIff` | src/aof.c:470-506 | in every reachable idle state a rewrite can complete if and only if every living entry fits |
| `Compaction.RenameMends` | src/aof.c:602-606 | whatever was harmful before its fork, once a rewrite is renamed into place the named file shows the live tables again, if the commands since the fork are harmless |
| `Compaction.RewriteMends` | src/aof.c:470-632 | from every reachable idle state in which everything alive fits, a rewrite can be carried through after which every later reload shows the live tables |
| `AofServer.FinalizedSafe` | src/aof.c:571-632 | for every outcome of its system calls, finalizing keeps the invariant; on return the append descriptor is open on the named file, which is the complete flushed new log or the untouched old one |
| `AofServer.ReapedIsReady` | src/aof.c:688-690 | in every reachable state an active rewrite whose child succeeded has what finalizing needs |
| `AofServer.ReapedSafely` | src/aof.c:661-696 | in every reachable state: while the child runs nothing changes; else the rewrite is over, and the AOF name moves exactly if it was active, the child succeeded and so did all of finalizing |
| `AofServer.HalfWriteForgotten` | src/aof.c:234-245 | a record written half-way is forgotten by the next start-up, which loads what was there before the command |
| `AofServer.Server.constructor` | src/server.c:116-170 | start-up on an empty file gives the initial state |
| `AofServer.Server.AbortRewrite` | src/aof.c:181-190 | the buffer is gone and the rewrite aborting |
| `AofServer.Server.Grow` | src/aof.c:211-217 | a larger buffer with the same contents |
| `AofServer.Server.MakeRoom` | src/aof.c:195-217 | the buffer has room for the bytes, doubled within the maximum, or the rewrite is aborted |
| `AofServer.Server.EmitRecord` | src/aof.c:195-221 | the bytes are added behind the diff with the buffer doubled, or the rewrite is aborted |
| `AofServer.Server.WriteRecord` | src/aof.c:245-251 | the bytes go to the live file and, while a rewrite is active, to the diff, and the flag is set |
| `AofServer.Server.LogRecord` | src/aof.c:245-252 | after that the always policy flushes, and the result tells whether it could |
| `AofServer.Server.AppendRecord` | src/aof.c:234-253 | refused without effect if the record does not fit; else exactly its bytes go to the live file and the diff, flushed under the always policy; the result tells which |
| `AofServer.Server.FlushLive` | src/aof.c:225-232 | flushed and the dirty flag cleared, or nothing |
| `AofServer.Server.Execute` | src/command.c:105-174 | operation first, then the log if it succeeded, whether the write succeeds, stops half-way or is refused; the reply follows the operation alone |
| `AofServer.Server.Cron` | src/aof.c:451-468 | under the per-tick policy a dirty log is flushed to its last byte and the flag cleared, if the device obliges; otherwise nothing changes |
| `AofServer.Server.RecordFailure` | src/aof.c:552-569 | one more failure, next attempt after the backoff delay |
| `AofServer.Server.BeginRewrite` | src/aof.c:508-539 | buffer allocated, child tracked, mode active; a failed fork only counts as a failure and postpones the next attempt |
| `AofServer.Server.EndRewrite` | src/aof.c:541-547 | no buffer, no child, idle |
| `AofServer.Server.DropRewrite` | src/aof.c:627-631 | the temporary name goes, the live file stays, one more failure is recorded |
| `AofServer.Server.CompleteTemp` | src/aof.c:572-591 | the diff goes behind the snapshot and to the device, up to the first failure |
| `AofServer.Server.SwitchOver` | src/aof.c:593-610 | new descriptor, rename, descriptor switch, up to the first failure |
| `AofServer.Server.Finalize` | src/aof.c:571-632 | equals the machine's sub-steps up to the first that fails; the failure streak is reset exactly on success |
| `AofServer.Server.ReapChild` | src/aof.c:661-696 | an aborted rewrite is discarded however its child ended, an active one finalized exactly if the child succeeded; the failure streak and next attempt follow the outcome |
| `Backoff.ComputeDelay` | src/aof.c:552-565 | the doubling loop gives min(base * 2^(streak-1), max), base for the first failure; it never holds more than twice the maximum if base <= max, and never more than twice the sum of the two otherwise, so it cannot overflow |
| `Backoff.DelayDoubles` | src/aof.c:552-565 | the first failure waits for base, each further one twice as long up to the maximum, if base <= max |
| `Backoff.DelayReversed` | src/config.c:38-41 | if base > max, the first failure waits for base and every further one for the maximum |
| `Backoff.DelayMonotone` | src/aof.c:552-565 | if base <= max, longer streaks never wait less and never more than the maximum |
| `Backoff.DelayDropsWhenReversed` | src/config.c:38-41 | if base > max the second delay is shorter than the first |
| `HashTable.MaskIsModulo` | src/ht.c:93-102 | masking with a power of two less one is the remainder |
| `HashTable.Table.constructor` | src/ht.c:11-19 | an empty table of four buckets |
| `HashTable.Table.Find` | src/ht.c:93-102 | finds the one node of the key, or null exactly if there is none |
| `HashTable.Table.Insert` | src/ht.c:38-61 | a new key goes in front of its chain and the table stands for the extended map |
| `HashTable.Table.Overwrite` | src/ht.c:63-76 | the map with the key's value replaced |
| `HashTable.Table.Put` | src/ht.c:63-89 | set: the map updated at the key, one node a key, right bucket, right count, load at most 3/4; the size doubles exactly when a new key would pass that |
| `HashTable.Table.Get` | src/ht.c:106-116 | the value the map has for the key |
| `HashTable.Table.Unlink` | src/ht.c:118-138 | exactly one node leaves its chain; the others keep their order |
| `HashTable.Table.Locate` | src/ht.c:118-127 | the one node of the key with the node before it in its chain, or null exactly if there is none |
| `HashTable.Table.Delete` | src/ht.c:118-138 | the map without the key; success exactly if it was there |
| `HashTable.Table.MoveEntry` | src/ht.c:162-168 | one turn of the rehash: the node is in front of its new chain, the rest of the old chain is returned |
| `HashTable.Table.MoveChain` | src/ht.c:161-169 | a whole old chain moves, though its links are overwritten on the way |
| `HashTable.Table.Rehash` | src/ht.c:156-173 | every node ends up in the bucket the new size selects, none lost or duplicated |
| `HashTable.Table.Resize` | src/ht.c:156-173 | a table of the new size for the same map |
| `HashTable.Table.BucketIsRemainder` | src/ht.c:93-102 | in every valid table a key's bucket is its hash modulo the size |
| `HashTable.FlatIsMembers` | src/ht.c:184-201 | the visiting order contains every node of the table exactly once |
| `HashTable.Cursor.constructor` | src/ht.c:175-182 | nothing handed out yet |
| `HashTable.Cursor.Next` | src/ht.c:184-201 | on an unchanged table the calls hand out the visiting order one by one and then only null |
| `Expiry.ReadsAreTimedMap` | src/db.c:37-80 | GET and TTL answer from the keys alive now; -2, -1 and a real TTL are never confused |
| `Expiry.SweepsAreInvisible` | src/db.c:82-109 | in every run with nondecreasing time, replies do not depend on which sweeps ran, writes on dead keys other than SETEX excepted |
| `Expiry.RepliesIgnoreSweeps` | src/db.c:82-109 | the same from one common start |
| `Expiry.WriteNoticesSweepIff` | src/db.c:43-57 | a write on a dead key tells whether the key was swept if and only if it is not a SETEX |
| `Database.Db.constructor` | src/db.c:8-14 | two empty tables |
| `Database.Db.Set` | src/db.c:43-45 | value replaced, old deadline kept |
| `Database.Db.Del` | src/db.c:22-25 | gone from both tables; success exactly if it had a value |
| `Database.Db.Setex` | src/db.c:47-57 | value and, if positive, deadline replaced |
| `Database.Db.KeyExpire` | src/db.c:64-68 | new deadline for an existing key; fails without effect otherwise or if not positive |
| `Database.Db.Persist` | src/db.c:59-62 | the deadline is gone; success exactly if there was one |
| `Database.Db.ExpireClean` | src/db.c:27-34 | exactly a key past its deadline leaves both tables |
| `Database.Db.Get` | src/db.c:37-41 | answers as the timed map does |
| `Database.Db.GetTtl` | src/db.c:71-80 | answers as the timed map does |
| `Database.Db.SweepEntry` | src/db.c:101-107 | the successor saved before cleaning is the right one, and only this entry can leave the chain |
| `Database.Db.SweepBucket` | src/db.c:99-107 | exactly the dead keys of the bucket go, and the count is their number |
| `Database.Db.ActiveSweep` | src/db.c:82-109 | for any sample of buckets in use, repeats included, exactly the dead keys in them go, counted once each |
| `Database.SweptSizes` | src/db.c:82-109 | that count is the drop in size of both tables, and only dead keys are gone |
| `Database.Db.SweepRound` | src/server.c:27-29 | a round samples as many buckets in use as asked for or as there are deadlines, finds exactly the dead keys in them, and its result is their number and the drop in size of both tables; at least one if all deadlines have passed |
| `Database.Db.ActiveExpireCron` | src/server.c:18-37 | at least one round runs exactly if enabled with at most 250 ticks a second; the loop ends only after a round below the percentage or with the clock past the budget, within one round more than the number of deadlines even if the clock stands still; it amounts to one sweep, whose rounds add up to the drop in size; if all deadlines have passed their number drops |
| `Database.Db.IterationVisits` | src/aof.c:481-485 | the child's walk over the table iterator meets every key exactly once |
| `Framing.FramesSplit` | src/networking.c:81-106 | the frames of a stream do not depend on where it is split |
| `Framing.FramesLossless` | src/networking.c:81-106 | a stream is its frames followed by the rest |
| `Framing.FramesOfJoined` | src/networking.c:72-94 | framed payloads are read back one by one |
| `Framing.FrameLayout` | src/networking.c:72-79 | the length counts the payload alone and stands before it, most significant byte first |
| `Connection.SendKeeps` | src/networking.c:27-79 | a reply is accepted whole and in order, refused for want of room only, or its write breaks the connection; an empty queue never refuses |
| `Connection.ProcessKeeps` | src/networking.c:81-106 | processing the buffer keeps the books and leaves no request waiting except one whose reply was refused |
| `Connection.ReadKeeps` | src/networking.c:131-154 | every read keeps them |
| `Connection.WriteKeeps` | src/networking.c:108-129 | every write event keeps them |
| `Connection.Run` | src/networking.c:81-154 | so every sequence of events does |
| `Connection.RunsExactlyTheFrames` | src/networking.c:81-154 | for every chunking, with no refusal and no error, the commands run are exactly the complete frames of the stream up to the first oversized one, and there is room to read |
| `Closing.ClosesIff` | src/networking.c:81-154 | over every run, an open connection is closed by the next event if and only if that is an end of stream, a read error, a read without room, or brings a fatal write or an oversized frame; it is broken exactly by a read error or a fatal write |
| `Closing.NothingHappens` | src/networking.c:143-146 | a read with nothing to deliver changes nothing, nor does a write event while the kernel takes nothing |
| `Closing.ClosedStays` | src/networking.c:134-135 | a closed connection stays as it is |
| `Closing.ReadTakesAll` | src/networking.c:137-152 | what is read is all that was delivered, up to the room in the buffer |
| `Closing.WriteSendsTaken` | src/networking.c:111-121 | what the kernel takes of the queue is sent, as much as it says, in order, from the front |
| `Closing.ReplySentAtOnce` | src/networking.c:46-65 | so is what it takes of a reply offered at once because nothing was waiting |
| `Connection.SameBytesSameCommands` | src/networking.c:131-154 | the same bytes split differently run the same commands |
| `Connection.RunsAndReplies` | src/networking.c:96-104 | execution is exactly once if and only if no reply was refused; in general each request ran as often as it was tried, and each consumed one has exactly one accepted reply, that of its last run |
| `Connection.BytesConserved` | src/networking.c:27-129 | bytes sent then pending are the accepted replies in order, bytes received are the consumed frames then the buffer, and whatever waits has a write handler registered |
| `Connection.ZeroReadIffFull` | src/networking.c:137-142 | a peer that has sent bytes is taken to have closed if and only if the read buffer is full, which needs a refused reply |
| `Connection.DrainServesRetry` | src/networking.c:122-128 | once the queue drains, the waiting request is served unless its write fails |
| `Connection.BusyPeerIsDropped` | src/networking.c:96-100 | a concrete run in which a request is executed twice and a live peer is disconnected |
| `Client.Client.constructor` | src/networking.c:173-175 | a new connection |
| `Client.Client.Remove` | src/networking.c:19-25 | everything zeroed, nothing registered |
| `Client.Client.Compact` | src/networking.c:31-36 | the unsent bytes move to the front and are the same bytes |
| `Client.Client.QueueWrite` | src/networking.c:27-70 | the compacting buffer behaves as a plain byte queue |
| `Client.Client.WriteNow` | src/networking.c:46-65 | the fast path sends a prefix and leaves the rest to the event loop |
| `Client.Client.SendFramed` | src/networking.c:72-79 | the framed reply is queued, or refused without effect |
| `Client.Client.Consume` | src/networking.c:102-104 | the first frame leaves the read buffer |
| `Client.Client.ProcessBuffer` | src/networking.c:81-106 | the loop on the buffer computes the specified processing |
| `Client.Client.OnRead` | src/networking.c:131-154 | one read event, in place |
| `Client.Client.OnWrite` | src/networking.c:108-129 | one write event, in place |

## Left out

- Sockets, kqueue, accept, listener and descriptor tables; registering a handler is taken to succeed.
- fork, waitpid and signals are steps with arbitrary outcome. That the child inherits the SIGTERM handler and shutdown pipe (`src/server.c:54-64`) is not seen, and a failed `waitpid` (`src/aof.c:666-671`) is taken to mean that the child is gone.
- File-system internals: rename is atomic and durable, a flush makes the whole prior content durable, and a power loss leaves a prefix of the file. The code never flushes the directory.
- What happens after start-up refuses a file (`Recovery.RefusedIff`): runs of the machine end there.
- Runs that go on after a write to the live log failed half-way; `AofServer.Server.AppendRecord` and `AofServer.Server.Execute` state what the failing call leaves behind.
- Durability.NamedFileShowsTables: assumes harmless commands since the last completed rewrite and harmless earlier reloads, because the code is wrong otherwise; `Durability.ReloadsExactlyIff` shows the condition necessary.
- Runs that go on after a reload that was not harmless.
- Wall clocks that go backwards, and deadlines that pass while a reload is under way.
- Expiry.SweepsAreInvisible: excludes writes other than SETEX on a key past its deadline, because `Expiry.WriteNoticesSweepIff` shows that exactly those notice.
- Memory allocation failure (a failed `realloc` also aborts a rewrite) and ownership of C strings. The sweep passes an entry's own key to a function that frees it (`src/db.c:104`, `src/ht.c:128`); keys are values here.
- LogFile.Load: stops with an outcome of its own where a record body is longer than the record buffer, which the code reads past its end (`src/aof.c:402`), or where two lengths wrap round; what the code does then is undefined. Read errors of the loader are not modelled.
- Overflow of seconds * 1000 (`src/command.c:127`, `src/command.c:145`): deadlines are given.
- BGREWRITEAOF with the AOF disabled (`src/command.c:210-219`): the model has it enabled.
- Size and growth thresholds that start a rewrite from the cron: a rewrite may start at any time.
- Randomness of bucket sampling: an arbitrary choice of buckets in use; the sampling loop of the code ends only with probability one.
- Tokenizer, INFO, KEYS, configuration parsing, client timeouts, the quarantine copy, counters, logging and the Python client: easy or input and output only.
