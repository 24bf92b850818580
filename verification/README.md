# Redis persistence, bit strings, keyspace and runtime structures; issue tracking

This project models, in Dafny, the parts of the repository whose correctness rests on state that
several pieces of code share: the vendored Redis 4.0.6 (append-only file, bit operations, keyspace
indexes, timers, background jobs, linked list) and the issue life cycle of the Flask application.
`dafny verify dfyconfig.toml` checks everything.

| file | what it models |
|---|---|
| `Common.dfy` | what several modules need |
| `Resp.dfy` | the text of a logged command, and the loader's parse loop |
| `Dataset.dfy` | databases as maps from key to value and expiry; commands; what each one feeds to the log |
| `CommandMeaning.dfy` | what each command does, key by key, from the databases before and after it |
| `AofLog.dfy` | logged arguments, the translation to absolute expiry times, loading a log |
| `Rewriter.dfy`, `RewriteFile.dfy` | regenerating the data set as a log, in bounded batches, and the file it makes |
| `RewriteBuffer.dfy` | the block list of differences kept while a child rewrites the file |
| `AofServer.dfy` | feeding, flushing, forking, switching the file on and off, installing a rewritten file |
| `AofFits.dfy` | commands that fit the C types are logged in a form the loader accepts |
| `AofProtocol.dfy` | parent and child of a rewrite as interleaved steps, with commands, flushes, crashes |
| `AofRun.dfy` | every run of the server class is a run of that protocol |
| `Bits.dfy`, `Popcount.dfy`, `Bitop.dfy`, `Bitpos.dfy`, `Bitfield.dfy` | bit strings |
| `SlotIndex.dfy`, `Keyspace.dfy` | the dictionaries of a server, the slot index and its counters |
| `KeyspaceData.dfy` | those dictionaries hold the data set of `Dataset.dfy`, over every run |
| `Adlist.dfy` | the doubly linked list, over heap nodes |
| `Timers.dfy` | the timer list of the event loop, changed by callbacks while it is walked |
| `Bio.dfy` | background jobs as interleaved steps of producers and a worker |
| `Issues.dfy` | checks, alerts and acknowledgement of issues |

How the state is represented:

- Bytes of the log are characters of a string; bytes of bit strings are `bv8`. `unsigned long` and
  64-bit values are numbers with the wrap-around written out, or `bv32`/`bv64` where lanes matter.
- Dictionaries are maps, and iterating one visits its keys in any order. The radix tree of slots is
  a set of byte strings in lexicographic order, and `keyHashSlot` is any function into 0..16383.
- A write returns any count from -1 to the length asked for; the pipe is a reliable queue of bytes
  from which a read gives nothing only when it is empty. The block size and the number of items per
  command are arbitrary positive numbers.
- The clock is read once per command and does not go back (`Tick` moves it forward). The child reads
  its own clock any time after the fork, and leaves out of its snapshot the keys expired by then. So
  a file may lack keys that are still alive in the parent, but only until the parent's clock gets
  there. `Dataset.Safe` says which commands may run meanwhile: those that do not build on a key the
  file lacks. `Dataset.Careful` is the form a caller can check of the data set alone, and
  `Dataset.CarefulIff` shows it exact: a command is careful if and only if it is safe for every file
  that agrees. `AofProtocol.Durable` holds from the child's reading on for runs of careful commands,
  `AofProtocol.DurablePrompt` at once when the reading is the fork instant, and
  `AofProtocol.LateSnapshotLosesKey` is an instance of what is lost otherwise.
- Commands without a case of their own have an arbitrary deterministic effect: on one key, whose
  expiry they keep (`Update`, for the names in `AofLog.SINGLE`), or on keys of one database (`Many`,
  for the names in `AofLog.MULTI`), which they look up in order, expiring them if need be, until
  they have seen enough. Commands that are fed as another one are `Rewritten` with the form they are
  fed in given, whatever sum or random pick it holds; INCRBYFLOAT, whose form does not do what it
  did, has a case of its own.
- Assertions of `db.c` are preconditions of the methods that model those functions.
- Subtractions of `int64_t` wrap around as two's complement does. C leaves that undefined; the one
  place where it matters is `bitops.c:332`, see `Bitfield.SaturatesIff`.

Behaviour of the code that its comments or its users may not expect:

- INCRBYFLOAT keeps the expiry of its key but is logged as a SET, which drops it: after SET k 1 PX 100 and
  INCRBYFLOAT k 1 the loaded file has the key for ever (`Dataset.IncrByFloatLosesExpiry`, and exactly when
  in `Dataset.IncrByFloatIff`).
- RESTORE with a time to live is logged as it was sent, so every load starts the time again
  (`AofLog.RestoreExample`, exactly when in `AofLog.LoadTwiceIff` and `Dataset.RestoreIff`).
- In cluster mode `emptyDb` of a database other than 0 drops the index of the keys of database 0
  (`Keyspace.Server.EmptyDb`); no client can select one.
- `bitops.c:329-331` says that an overflowing difference is never used. With a signed SET far below
  the range it is, and saturation then stores the maximum (`Bitfield.MisjudgedExample`).
- An unsigned SET takes a negative operand as a huge number, so saturation stores the maximum
  (`Bitfield.NegativeSetExample`); wrapping and failing are not affected (`Bitfield.OthersExact`).
- BITPOS for a clear bit in an empty range answers -1 even when no end was given and the zero padding
  would count, for instance in an existing empty string; a missing key answers 0.
- A timer that a finalizer creates is dropped from the list when the next timer visited is dead too and
  no live one was met before (`Timers.NoneLostMeans`).
- A child that reads its clock after the fork can lose a key for good, see above.
- WRAP reports underflow of an unsigned or signed field as 1, not -1 (`bitops.c:322` and `374`); its
  callers only ask whether the result is zero.

## Model

| member | source | states |
|---|---|---|
| Resp.CatGenericCommand | redis-4.0.6/src/aof.c:450-473 | appends exactly the multi-bulk text of the arguments, binary safe, to what is there |
| Resp.StrToLLDecInt | redis-4.0.6/src/aof.c:486-505 | the number printed in a logged argument is read back as the same number |
| Resp.NumberText | redis-4.0.6/src/aof.c:486-505 | a number is printed without a sign unless it is negative, and read with any of the six blanks of the C locale in front of it |
| Resp.PreambleIs | redis-4.0.6/src/aof.c:662-667 | a file has an RDB preamble if and only if it begins with those five bytes |
| Resp.ReadEncoded | redis-4.0.6/src/aof.c:682-727 | reading an encoded command returns its arguments and leaves the rest untouched, whatever follows |
| Resp.TruncatedCommand | redis-4.0.6/src/aof.c:682-727 | a command cut anywhere inside is reported as a short read, never as another command or a format error |
| Resp.Load | redis-4.0.6/src/aof.c:681-798 | the parse loop computes the commands run, the valid length and the way it ended |
| Resp.LoadTruncated | redis-4.0.6/src/aof.c:682-798 | for every truncation point the commands run are the longest prefix lying wholly before it, and valid_up_to is that prefix's encoded length |
| Resp.LoadInvertsEncode | redis-4.0.6/src/aof.c:682-768 | loading the encoding of any sequence of commands gives back that sequence, completely |
| Resp.LoadThenTail | redis-4.0.6/src/aof.c:682-768 | what follows a whole log is loaded as a file of its own, after the log |
| Resp.BadCommand | redis-4.0.6/src/aof.c:702-705 | a command that does not begin with an asterisk or announces no argument is a format error, found after every command before it has run |
| Resp.BadArgument | redis-4.0.6/src/aof.c:711-721 | so is an argument that does not begin with a dollar sign, after any number of good ones; a negative length makes the server exit for want of memory |
| Dataset.TouchAgree | redis-4.0.6/src/db.c:1081-1132 | expiring a key and replaying the DEL it feeds keep the data set and the replay in agreement from any horizon on, and equal at that key unless the replay lacks it for expiring before the horizon |
| Dataset.ReplayKeyUpdate | redis-4.0.6/src/aof.c:527-560 | for every command on one key, run on an entry and loaded at any time, on the same entry or on none where the file lacks it: what is left follows what the command left if and only if the command is reproduced by what it feeds and does not build on what is missing |
| Dataset.SingleAgree | redis-4.0.6/src/aof.c:512-576 | agreement is kept by every safe single-key command |
| Dataset.CareNeeded | redis-4.0.6/src/aof.c:512-576 | a single-key command keeps agreement from the horizon on if and only if it is safe, or is a RESTORE loaded at the millisecond it ran; but for the expire commands, what it breaks is broken at every later time too |
| Dataset.RenameAgree | redis-4.0.6/src/db.c:839-879 | RENAME keeps agreement if and only if it is safe: the file has the source, or nothing at the target, or already the same entry there; RENAMENX always does; the expiry of either key on the way is included |
| Dataset.MoveAgree | redis-4.0.6/src/db.c:889-942 | agreement is kept by MOVE, without any care |
| Dataset.DelAgree | redis-4.0.6/src/db.c:438-454 | agreement is kept by DEL and UNLINK of any list of keys, repeated or expired ones included |
| Dataset.LookUpAgree | redis-4.0.6/src/db.c:1081-1132 | looking up any list of keys, expiring them on the way and stopping when the command has seen enough, keeps agreement, and a load that looks them up finds the same and stops at the same key |
| Dataset.ManyAgree | redis-4.0.6/src/t_string.c:303-331 | agreement is kept by any effect on any keys of one database that depends on such a lookup: new values, deletions, expiries taken from a key looked up, keys written unseen |
| Dataset.ExecAgree | redis-4.0.6/src/aof.c:512-576 | for every command and every horizon not before it: if a replay agreed with the data set from the horizon on and the command is safe, then after the command and the replay of what it fed they agree again |
| Dataset.CarefulIff | redis-4.0.6/src/aof.c:1069-1096 | a command is careful about the data set if and only if it is safe for every replay that agrees from the horizon on |
| Dataset.CarefulExact | redis-4.0.6/src/aof.c:512-576 | for every command but those on several keys: it is careful if and only if, for every agreeing replay and every time of loading, agreement is kept |
| Dataset.CarefulNow | redis-4.0.6/src/aof.c:1069 | when the horizon is the present, a command is careful if and only if it is lossless |
| Dataset.IncrByFloatIff | redis-4.0.6/src/t_string.c:401-433 | after INCRBYFLOAT on a key both sides have, they agree, now or at any later time, if and only if the key has no expiry or the command is refused |
| Dataset.IncrByFloatLosesExpiry | redis-4.0.6/src/t_string.c:416-432 | for the key 1 with an expiry, agreement is gone at every time |
| Dataset.RestoreIff | redis-4.0.6/src/cluster.c:4697-4751 | RESTORE keeps agreement if and only if it is refused, has no time to live, or is loaded at the millisecond it ran |
| CommandMeaning.SetMeans | redis-4.0.6/src/t_string.c:67-93 | a SET with NX writes exactly when the key is absent or past its time, with XX exactly when it is present and not past, with neither always; it then holds the string with now plus the time to live or no time; otherwise it is as it was; no other key of any database changes |
| CommandMeaning.SetFeeds | redis-4.0.6/src/t_string.c:79-91 | a SET is fed exactly when it writes, after the DEL of a key past its time |
| CommandMeaning.TtlMeans | redis-4.0.6/src/t_string.c:116-131 | the last EX counts in seconds, the last PX in milliseconds |
| CommandMeaning.SetExMeans | redis-4.0.6/src/t_string.c:147-155 | SETEX counts in seconds and PSETEX in milliseconds from now; both always write |
| CommandMeaning.ExpireMeans | redis-4.0.6/src/expire.c:386-451 | EXPIRE and EXPIREAT count in seconds, PEXPIRE and PEXPIREAT in milliseconds, from now or from the epoch; a deadline that has come removes the key, another leaves the value and becomes its time |
| CommandMeaning.PersistMeans | redis-4.0.6/src/expire.c:487-498 | the time goes and the value stays; a key past its time is removed |
| CommandMeaning.StringsMean | redis-4.0.6/src/t_string.c:176-183 | GETSET writes without a time and INCRBYFLOAT keeps the time; neither touches a value of another type |
| CommandMeaning.RestoreMeans | redis-4.0.6/src/cluster.c:4697-4751 | the value of a good payload, with now plus the time to live, unless the key is there and REPLACE is not given |
| CommandMeaning.OneKeyOnly | redis-4.0.6/src/db.c:206-215 | a command on one key changes no other key of any database |
| CommandMeaning.DelMeans | redis-4.0.6/src/db.c:438-454 | DEL and UNLINK remove the keys named and no other |
| CommandMeaning.RenameMeans | redis-4.0.6/src/db.c:839-886 | the target gets the value and the time of the source, which goes, unless the source is not there or RENAMENX finds the target; no other key changes |
| CommandMeaning.MoveMeans | redis-4.0.6/src/db.c:889-942 | the same from one database to another, never overwriting a key that is there |
| CommandMeaning.SwapMeans | redis-4.0.6/src/db.c:968-1027 | SWAPDB exchanges two databases and leaves the others |
| CommandMeaning.FlushMeans | redis-4.0.6/src/db.c:402-436 | FLUSHDB empties one database and leaves the others, FLUSHALL empties all |
| AofLog.ParseArgvOf | redis-4.0.6/src/aof.c:727-744 | the loader understands the logged arguments of a command as that command |
| AofLog.ParseSent | redis-4.0.6/src/t_string.c:96-145 | a SET with any options, SETEX, PSETEX and the expire commands are read from their arguments as they were |
| AofLog.ParseKnown | redis-4.0.6/src/aof.c:734-739 | no name outside the tables is taken for a command |
| AofLog.CatExpireAt | redis-4.0.6/src/aof.c:482-510 | EXPIRE, PEXPIRE, EXPIREAT, SETEX and PSETEX become a PEXPIREAT with the absolute time in milliseconds |
| AofLog.ScanSetOptions | redis-4.0.6/src/aof.c:540-548 | finds the operands of the last EX and the last PX among the arguments of SET |
| AofLog.CatSetWithOptions | redis-4.0.6/src/aof.c:539-554 | SET with EX or PX is logged as a plain SET followed by a PEXPIREAT |
| AofLog.CatTranslated | redis-4.0.6/src/aof.c:527-560 | what is appended is the encoding of the translated commands |
| AofLog.BuildFeed | redis-4.0.6/src/aof.c:512-560 | a SELECT precedes the translated commands exactly when the target database is not the selected one |
| AofLog.LoadFeeds | redis-4.0.6/src/aof.c:512-576 | loading what was fed runs each command in the database it was fed for |
| AofLog.CommandKeepsReplay | redis-4.0.6/src/aof.c:512-576 | a safe command, its expiries, its translation, its encoding and its SELECTs, loaded after an agreeing log, keep agreement and the selected database |
| AofLog.ExecTimeless | redis-4.0.6/src/aof.c:482-560 | a lossless command feeds only absolute times in the future |
| AofLog.FeedsFixed | redis-4.0.6/src/aof.c:482-560 | what is logged for such feeds has a meaning that does not depend on when it is loaded |
| AofLog.LoadTwiceIff | redis-4.0.6/src/aof.c:527-560 | a logged command, loaded at two times, does the same if and only if it is not a RESTORE that succeeds with a time to live |
| AofLog.RestoreExample | redis-4.0.6/src/cluster.c:4747 | RESTORE k 1000 p, loaded at 0 and at 5, expires at 1000 and at 1005 |
| AofLog.LoadAnyTime | redis-4.0.6/src/db.c:1097-1132 | a log of commands with such a meaning gives the same data set whenever it is loaded |
| AofLog.LoadValid | redis-4.0.6/src/aof.c:630-800 | a loaded data set has no empty container and no negative expiry |
| RewriteBuffer.Buffer.Append | redis-4.0.6/src/aof.c:125-169 | the bytes go at the end of the queue, every block keeps its size, and bytes that wait have a handler that will send them |
| RewriteBuffer.Buffer.SendDiff | redis-4.0.6/src/aof.c:95-122 | what was sent followed by what remains is what there was; nothing is sent once the child asked to stop; it ends only when the queue is empty or the pipe refuses |
| RewriteBuffer.Buffer.WriteAll | redis-4.0.6/src/aof.c:174-194 | succeeds exactly when every block is written whole, and then wrote the whole queue; otherwise a prefix |
| RewriteBuffer.Buffer.Size | redis-4.0.6/src/aof.c:79-90 | the number of bytes queued |
| AofServer.FlushKeepsStream | redis-4.0.6/src/aof.c:344-426 | for a full, failed or short write, undone or not: file followed by buffer is unchanged, the recorded size is the file's length and the file only grows; a full write empties the buffer, a failed or undone one leaves it, a short one that stays takes off exactly what was written |
| AofServer.Server.Feed | redis-4.0.6/src/aof.c:512-576 | the same bytes reach aof_buf when the file is on and the rewrite buffer when a child is at work |
| AofServer.Server.Flush | redis-4.0.6/src/aof.c:288-448 | waits exactly while a background fsync is pending for less than two seconds; otherwise a full write moves the whole buffer to the file, and a short or failed one has the effect above; exits exactly on a bad write under the always policy, so that what was buffered is written and synced when it returns; never hands a second fsync to the background while one is pending |
| AofServer.Server.SyncAfterWrite | redis-4.0.6/src/aof.c:428-447 | syncs at once under the always policy, in the background at most once a second under everysec, not at all while a child runs if so configured |
| AofServer.Server.Fork | redis-4.0.6/src/aof.c:1337-1395 | forks exactly when no child is running; forces a SELECT, clears the scheduled flag and lets differences be sent |
| AofServer.Server.StartAppendOnly | redis-4.0.6/src/aof.c:238-267 | waits for the rewrite exactly when the file could be opened and a child was forked or an RDB child runs, in the latter case with a rewrite scheduled; otherwise stays off; file and buffer are not touched |
| AofServer.Server.StopAppendOnly | redis-4.0.6/src/aof.c:208-234 | flushes without waiting, so that a full write leaves all of the buffer in the file, switches off, and drops the child with what it was to be sent |
| AofServer.Server.SendDiff | redis-4.0.6/src/aof.c:95-122 | sends a prefix of the queue, nothing without a child or once it asked to stop |
| AofServer.Server.ChildAsked | redis-4.0.6/src/aof.c:1254-1276 | nothing more is sent, and the queue stays |
| AofServer.Server.BackgroundRewriteDone | redis-4.0.6/src/aof.c:1438-1585 | installs exactly when the child succeeded and every step worked: the child's file followed by the queued differences, aof_buf dropped, SELECT forced, and the fsync the policy asks for; a server that waited for the rewrite is then on, and otherwise still waits with a rewrite scheduled |
| Rewriter.RewriteItems | redis-4.0.6/src/aof.c:832-1032 | the counting loop writes the encoding of the batches, each declaring the number of arguments that follow |
| Rewriter.LoadBatches | redis-4.0.6/src/aof.c:832-1032 | loading the batches has the effect of one command with all the items |
| Rewriter.LoadValue | redis-4.0.6/src/aof.c:832-1032 | loading the commands of a value rebuilds it exactly: list order, members, scores, fields |
| Rewriter.RewriteKey | redis-4.0.6/src/aof.c:1086-1125 | nothing for a key past its expiry, otherwise its value and its expiry |
| Rewriter.RewriteDb | redis-4.0.6/src/aof.c:1083-1131 | writes the commands of all unexpired keys, whatever order the iterator gives |
| RewriteFile.RewriteAppendOnlyFile | redis-4.0.6/src/aof.c:1065-1140 | for a data set that fits the C types, the file written loads completely, and loading it at any time rebuilds every unexpired key with its value and expiry in every database, and nothing else |
| RewriteFile.RewriteFits | redis-4.0.6/src/aof.c:832-1032 | every command written for such a data set has an argument count and lengths the loader accepts |
| AofFits.ExecFits | redis-4.0.6/src/aof.c:512-560 | whatever a command that fits the C types feeds, expiries and translated times included, fits them too |
| AofFits.FeedAllFits | redis-4.0.6/src/aof.c:512-560 | what is appended for it, SELECTs included, is a sequence of commands the loader accepts |
| Rewriter.RewriteRebuilds | redis-4.0.6/src/aof.c:1065-1140 | the commands regenerated for a data set, whatever order the iterators took, rebuild its unexpired part exactly |
| Rewriter.RewriteWithin | redis-4.0.6/src/aof.c:832-1032 | no command of the log holds more than the item limit |
| RewriteFile.RewriteParses | redis-4.0.6/src/aof.c:1065-1140 | the file parses into exactly those commands |
| AofProtocol.StepStream | redis-4.0.6/src/aof.c:1185-1275 | every step of parent or child keeps the bytes in order: file and buffer are the log, child, pipe and queue the differences |
| AofProtocol.StepInv | redis-4.0.6/src/aof.c:1337-1395 | every careful step of parent or child keeps file and rewrite faithful |
| AofProtocol.RunAllInv | redis-4.0.6/src/aof.c:1337-1395 | so does every careful run |
| AofProtocol.Durable | redis-4.0.6/src/aof.c:512-576 | in every state reached by a careful run with the file on, loading file followed by aof_buf, at any time, gives the data set up to keys past their expiry: now, or at the time the child that wrote the snapshot read its clock, whichever is later |
| AofProtocol.PromptCareful | redis-4.0.6/src/aof.c:1069 | when every child reads its clock at the fork, a run of lossless commands is careful and that time is never later than now |
| AofProtocol.DurablePrompt | redis-4.0.6/src/aof.c:512-576 | then, if while there is a file no INCRBYFLOAT runs on a key with an expiry and no RESTORE with a time to live, and commands and data sets fit the C types, the file with aof_buf always loads completely and gives the present data set up to keys past their expiry |
| AofProtocol.LossyBreaks | redis-4.0.6/src/t_string.c:426-432 | in every state reached by a careful run with the file on, such a command leaves a file that, loaded at another millisecond, disagrees with the data set at every time |
| AofProtocol.LogAccepted | redis-4.0.6/src/aof.c:682-727 | over every run whose commands, and data sets when forked, fit the C types, every command in the log is one the loader accepts |
| AofProtocol.CrashSafe | redis-4.0.6/src/aof.c:288-426 | in every reachable state, careful or not, the file is a prefix of the stream fed, and restarting on it runs the longest prefix of commands it holds |
| AofProtocol.RewriteLosesNothing | redis-4.0.6/src/aof.c:1185-1275 | at every step the child's differences, the pipe and the queue are in order the bytes fed since the fork; after the handshake and the last read the pipe is empty; the installed file is the snapshot and exactly those bytes |
| AofProtocol.RewriteSwitchesOn | redis-4.0.6/src/aof.c:1483-1560 | in every state a careful run of fitting commands reaches, reaping a child that exited well turns the file on, with nothing buffered, and the file loads completely to the data set, up to keys past their expiry at the time the child read its clock |
| AofProtocol.RewriteCanFinish | redis-4.0.6/src/aof.c:1185-1235 | while the child writes its snapshot the handshake can be completed, wherever the bytes fed since the fork are; then the file is on and is the snapshot followed by all of them |
| AofProtocol.StartForks | redis-4.0.6/src/aof.c:238-267 | switching the file on with no other child about leads to such a state, with the data set of that moment as the snapshot |
| AofProtocol.FailedRewrite | redis-4.0.6/src/aof.c:1560-1585 | a child that fails at any point leaves file, buffer, log and data set as they were; a server that waited for it schedules another rewrite |
| AofProtocol.ChannelMoves | redis-4.0.6/src/aof.c:95-122 | all that is queued can be sent until the child asks to stop, and all that is in the pipe read while it writes the snapshot |
| AofProtocol.RdbChildFirst | redis-4.0.6/src/aof.c:252-262 | while an RDB child runs no rewrite is forked, and switching the file on schedules one |
| AofProtocol.SnapshotFaithful | redis-4.0.6/src/aof.c:1065-1140 | the snapshot of the data set at the fork is a faithful log from the time the child reads its clock |
| AofProtocol.ForkInv | redis-4.0.6/src/aof.c:1337-1395 | forking, with the SELECT reset, keeps file and rewrite faithful |
| AofProtocol.ReapInv | redis-4.0.6/src/aof.c:1499-1585 | replacing the file and dropping aof_buf keeps the log faithful, and so does a failed or killed child |
| AofProtocol.CrashInv | redis-4.0.6/src/aof.c:777-798 | a restart after a crash, even in the middle of a write, is again a state where the log is faithful |
| AofProtocol.LateSnapshotAgrees | redis-4.0.6/src/aof.c:1069-1096 | a snapshot agrees with the data set at a time `t` if and only if every key expired by the child's clock is expired at `t`: always from that clock on, and at the fork only if no key expires in between. It is about the snapshot alone; what commands may follow it is the matter of `Dataset.Safe` |
| AofProtocol.LateSnapshotLosesKey | redis-4.0.6/src/aof.c:1096 | a key made persistent in between is lost at every later time |
| AofRun.FeedMany | redis-4.0.6/src/server.c:2103-2110 | feeding the commands one by one leaves file buffer, rewrite buffer and selected database as the protocol's step does |
| AofRun.Do | redis-4.0.6/src/server.c:1185-1237 | every call of a server method, whatever the outcomes of its system calls, is a step of the protocol on the object's fields, unless it makes the server exit |
| AofRun.Serve | redis-4.0.6/src/server.c:1185-1237 | after any sequence of calls the object's file and buffers are those of a run of the protocol |
| AofRun.ServedDurably | redis-4.0.6/src/aof.c:512-576 | so what the object has written and still holds, loaded at any time, gives the data set its commands made, up to keys past their expiry |
| PopcountWords.BatchCounts | redis-4.0.6/src/bitops.c:57-87 | the masks, the byte-lane sums of seven words and the multiply-shift give the number of bits set in 28 bytes, with no lane overflowing |
| PopcountWords.RedisPopcount | redis-4.0.6/src/bitops.c:40-92 | the number of bits set, for every length and every alignment |
| Bitop.WordOpBytes | redis-4.0.6/src/bitops.c:677-727 | an operation on words is that operation on each of their bytes |
| Bitop.FoldBits | redis-4.0.6/src/bitops.c:733-743 | each bit of the fold over the first sources is set under AND if and only if it is set in all of them, under OR in one of them, under XOR in an odd number of them |
| Bitop.MeaningBits | redis-4.0.6/src/bitops.c:657-745 | the same for every bit of the result, each source extended with zeros; under NOT a bit is set exactly when it is clear in the source |
| Bitop.MaxLenMeans | redis-4.0.6/src/bitops.c:627-654 | the result is at least as long as every source and as long as one of them |
| Bitop.FastBlock | redis-4.0.6/src/bitops.c:677-727 | four words at a time set those 32 bytes to the fold of the sources, whose bits are as above, and leave the others |
| Bitop.Compute | redis-4.0.6/src/bitops.c:657-745 | fast path and byte loop together give, at every byte, the fold of the operator over the zero-extended sources, whose bits are as above |
| Bitop.BitopCommand | redis-4.0.6/src/bitops.c:591-745 | for any number of sources, missing keys counting as empty: a result as long as the longest, each bit set if and only if it is set in all (AND), some (OR) or an odd number (XOR) of them, or clear in the one (NOT); the errors for NOT with several keys and for a key of another type |
| Bitpos.LoadWord | redis-4.0.6/src/bitops.c:144-159 | the word holds the next 64 bits, zero padded |
| Bitpos.ScanWord | redis-4.0.6/src/bitops.c:168-185 | the first position of the bit in the word; the panic is not reached |
| Bitpos.RedisBitpos | redis-4.0.6/src/bitops.c:101-186 | the least position holding the bit in the zero-padded string; -1 exactly when a 1 is sought and there is none |
| Bitpos.BitposCommand | redis-4.0.6/src/bitops.c:818-893 | in a clipped range that is not empty, the least position holding the bit, or -1 exactly when there is none, where only an explicit end stops the zero padding; -1 for an empty range, whatever bit is sought; for a missing key -1 or 0; the errors for another bit or type |
| Bitpos.RangeMeans | redis-4.0.6/src/bitops.c:791-797 | a byte is in the clipped range if and only if it is between the ends, negative ones counting from the end of the string; an end before the start of the string stands for the first byte |
| Bitpos.BitcountCommand | redis-4.0.6/src/bitops.c:769-815 | the bits set in the clipped range; 0 for an empty one, or both ends negative the wrong way round |
| Bitfield.SetUnsigned | redis-4.0.6/src/bitops.c:209-222 | the field holds the value modulo 2^bits and every other bit of the string is as it was |
| Bitfield.SetSigned | redis-4.0.6/src/bitops.c:224-227 | the same for a negative value, in two's complement |
| Bitfield.GetUnsigned | redis-4.0.6/src/bitops.c:229-241 | the number written by the bits of the field |
| Bitfield.GetSigned | redis-4.0.6/src/bitops.c:243-263 | that number as a two's complement number of the field's width |
| Bitfield.CheckUnsigned | redis-4.0.6/src/bitops.c:288-323 | overflow is reported exactly when the sum leaves the range, on which side except under WRAP, which always says 1; the limit is the sum modulo 2^bits, or the end of the range it left by |
| Bitfield.CheckSigned | redis-4.0.6/src/bitops.c:325-375 | the same for signed fields, with the case where the difference of line 332 wraps |
| Bitfield.ReduceMeaning | redis-4.0.6/src/bitops.c:314-321 | wrapping gives the one value of the range that differs from the sum by a multiple of 2^bits |
| Bitfield.SaturatesIff | redis-4.0.6/src/bitops.c:288-375 | saturation stores the value of the range nearest to what was asked for, the operand or the sum as given, if and only if the operand is neither that of a signed SET more than 2^63-1 below the maximum nor that of an unsigned SET below zero; in both cases it stores the maximum |
| Bitfield.OthersExact | redis-4.0.6/src/bitops.c:288-375 | wrapping and failing always treat the operand as given |
| Bitfield.DoesStore | redis-4.0.6/src/bitops.c:1022-1081 | SET replies with what the field held before it and INCRBY with what it holds after it; nil exactly when the policy is FAIL and the number asked for is out of range, and then nothing changes; a number in range is stored as it is, wrapping stores the congruent one and saturating the nearest, but for the two cases above |
| Bitfield.NegativeSetExample | redis-4.0.6/src/bitops.c:1052-1081 | SET u8 of -1, saturating, stores 255 |
| Bitfield.MisjudgedExample | redis-4.0.6/src/bitops.c:332-342 | SET i8 of the least int64, saturating, stores 127 |
| Bitfield.StoreSigned | redis-4.0.6/src/bitops.c:1022-1051 | SET and INCRBY on a signed field: what is stored and that nothing else changes; the reply is the field's value before a SET and after an INCRBY, nil exactly when FAIL meets a number out of range |
| Bitfield.StoreUnsigned | redis-4.0.6/src/bitops.c:1052-1081 | the same on an unsigned field |
| Bitfield.GetField | redis-4.0.6/src/bitops.c:1083-1116 | reading through the nine-byte window is reading the zero-extended string, with the right sign |
| Bitfield.ReadAfter | redis-4.0.6/src/bitops.c:1008-1117 | after a store, the field reads as stored and every disjoint field as before |
| Bitfield.DoesUnique | redis-4.0.6/src/bitops.c:1008-1117 | the description of an operation determines the new string and the reply |
| Bitfield.GrowKeepsBits | redis-4.0.6/src/bitops.c:478-520 | growing the string changes no bit of its zero extension and makes it exactly as long as asked for, never shorter |
| Bitfield.BitfieldCommand | redis-4.0.6/src/bitops.c:914-1117 | the operations take effect one after the other on the string grown to the farthest write, with the replies below; GETs alone need no string and neither change nor grow anything |
| Bitfield.StepReplies | redis-4.0.6/src/bitops.c:1010-1116 | each reply against the string before and after its operation: GET and SET give the field before, INCRBY the field after, nil exactly when FAIL meets a number out of range |
| Bitfield.GetThenSet | redis-4.0.6/src/bitops.c:1030-1051 | a GET just before a SET of the same field that is not refused gives the SET's reply |
| Bitfield.IncrThenGet | redis-4.0.6/src/bitops.c:1022-1029 | a GET just after an INCRBY of the same field that is not refused gives the INCRBY's reply |
| SlotIndex.LeastOfSlot | redis-4.0.6/src/db.c:1425-1444 | the least index entry at or above the two-byte prefix belongs to the slot whenever the slot has a key |
| SlotIndex.Next | redis-4.0.6/src/db.c:1413-1415 | the least entry not below a string |
| SlotIndex.SlotOrder | redis-4.0.6/src/db.c:1365-1386 | the entries of a lower slot come strictly before those of a higher one |
| SlotIndex.GetKeysInSlot | redis-4.0.6/src/db.c:1406-1421 | distinct keys of the slot, as many as asked for or as there are |
| Keyspace.Server.SlotToKeyUpdate | redis-4.0.6/src/db.c:1369-1386 | entry and counter of one key, added or removed |
| Keyspace.Server.DbAdd | redis-4.0.6/src/db.c:167-174 | a key that was not there is added, in the index and counters too |
| Keyspace.Server.DbOverwrite | redis-4.0.6/src/db.c:181-197 | the value changes, the expiry stays |
| Keyspace.Server.DbDelete | redis-4.0.6/src/db.c:248-258 | key, expiry, index entry and count go together; reports whether there was a key |
| Keyspace.Server.RemoveExpire | redis-4.0.6/src/db.c:1033-1038 | only the expiry goes |
| Keyspace.Server.SetExpire | redis-4.0.6/src/db.c:1044-1056 | only the expiry changes |
| Keyspace.Server.GetExpire | redis-4.0.6/src/db.c:1060-1072 | the expiry or -1; an expiry always has its key |
| Keyspace.Server.ExpireIfNeeded | redis-4.0.6/src/db.c:1081-1132 | the key is past if it has a time that is not negative and before now; a master then removes it from both dictionaries and propagates one DEL, and a slave only reports it; nothing is past while loading, and then nothing changes |
| Keyspace.Server.LookupKeyRead | redis-4.0.6/src/db.c:98-133 | an expired key is not seen, except on a slave by clients that may write |
| Keyspace.Server.LookupKeyWrite | redis-4.0.6/src/db.c:146-149 | the value after the expiry check |
| Keyspace.Server.SetKey | redis-4.0.6/src/db.c:206-215 | the key holds the value and has no expiry, whatever was there |
| Keyspace.Server.DelCommand | redis-4.0.6/src/db.c:438-454 | all keys named are gone; the reply counts them and a DEL is propagated for each that had expired |
| Keyspace.DelCountIs | redis-4.0.6/src/db.c:438-454 | the count is the number of distinct keys that were there and, on a master, not past their expiry |
| Keyspace.Server.Rename | redis-4.0.6/src/db.c:839-879 | every outcome, with the state after it |
| Keyspace.RenamedMeaning | redis-4.0.6/src/db.c:839-879 | the new name has the old one's value and expiry, the old name is gone, every other key is untouched |
| Keyspace.Server.Move | redis-4.0.6/src/db.c:889-942 | every outcome; value and expiry move together, both databases otherwise untouched |
| Keyspace.Server.Swap | redis-4.0.6/src/db.c:968-1027 | the two databases exchange dictionaries and expires; refused in cluster mode |
| Keyspace.Server.Expire | redis-4.0.6/src/expire.c:386-431 | a time already past deletes on a master, otherwise it is recorded |
| Keyspace.Server.Persist | redis-4.0.6/src/expire.c:487-498 | the expiry goes, and the reply says whether there was one |
| Keyspace.Server.Select | redis-4.0.6/src/db.c:477-493 | in cluster mode only database 0 |
| Keyspace.Server.EmptyDb | redis-4.0.6/src/db.c:319-347 | the chosen databases are empty and the number of keys removed is returned; index and counters stay right if and only if it is not a cluster's database other than 0 while there are keys |
| Keyspace.Server.DelKeysInSlot | redis-4.0.6/src/db.c:1425-1444 | terminates, removes exactly the keys of the slot with their expiries, and returns their number |
| Keyspace.Server.Run | redis-4.0.6/src/db.c:167-347 | over every run of commands the expires stay within the dictionaries and, in cluster mode, index and counters are those computed from the keys |
| KeyspaceData.Set | redis-4.0.6/src/t_string.c:67-93 | NX writes exactly when the key is absent or past its time, XX exactly when it is present and not past, the others always; what is written is the string, with the time of now plus the time to live or none; every other key of every database is as it was; and the outcome is that of the interpreter: DELs of expired keys, and whether the command is fed |
| KeyspaceData.ExpireKey | redis-4.0.6/src/expire.c:386-431 | the deadline in seconds or milliseconds, from now or from the epoch: one that has come removes the key and feeds a DEL, another is recorded and leaves the value; an absent or past key feeds nothing; every other key is as it was |
| KeyspaceData.DelKeysData | redis-4.0.6/src/db.c:438-454 | the same for the loop of DEL and UNLINK |
| KeyspaceData.RenameMatches | redis-4.0.6/src/db.c:839-879 | the same for RENAME and RENAMENX |
| KeyspaceData.MoveMatches | redis-4.0.6/src/db.c:889-942 | the same for MOVE |
| KeyspaceData.ExpireMatches | redis-4.0.6/src/expire.c:386-431 | the same for EXPIRE, PEXPIRE, EXPIREAT and PEXPIREAT, fed as a DEL when the time is past |
| KeyspaceData.PersistMatches | redis-4.0.6/src/expire.c:487-498 | the same for PERSIST |
| KeyspaceData.GetSetMatches | redis-4.0.6/src/t_string.c:176-182 | the same for GETSET, which drops the expiry |
| KeyspaceData.FloatMatches | redis-4.0.6/src/t_string.c:401-433 | the same for INCRBYFLOAT: the expiry stays in the dictionaries while a SET is fed |
| KeyspaceData.RestoreMatches | redis-4.0.6/src/cluster.c:4697-4751 | the same for RESTORE, which with REPLACE removes the key without looking whether it has expired |
| KeyspaceData.Execute | redis-4.0.6/src/server.c:2202-2300 | the same for every writing command of `db.c` and `expire.c`, SWAPDB and the flushes included, and for those of the rows above |
| KeyspaceData.Run | redis-4.0.6/src/server.c:2202-2300 | after any run of such commands and SELECTs, each at its own time, the dictionaries and expires are the interpreter's data set, and expiries and commands propagated are, in order, what it feeds to the log |
| Adlist.List.AddNodeHead | redis-4.0.6/src/adlist.c:88-106 | the value comes first, on a new node; the links stay well formed |
| Adlist.List.AddNodeTail | redis-4.0.6/src/adlist.c:114-132 | the value comes last, on a new node |
| Adlist.List.InsertNode | redis-4.0.6/src/adlist.c:134-161 | the value is inserted before or after the given node |
| Adlist.List.DelNode | redis-4.0.6/src/adlist.c:167-180 | exactly that node leaves the list |
| Adlist.List.Rotate | redis-4.0.6/src/adlist.c:330-343 | the last node becomes the first, on the same nodes |
| Adlist.List.Join | redis-4.0.6/src/adlist.c:347-362 | the nodes of the other list follow; the other list is empty and well formed |
| Adlist.List.Index | redis-4.0.6/src/adlist.c:315-327 | the node at a signed index, null out of range |
| Adlist.List.SearchKey | redis-4.0.6/src/adlist.c:290-308 | the first node that matches, null when none does |
| Adlist.List.Empty | redis-4.0.6/src/adlist.c:56-71 | the walk meets as many nodes as the length says, and the list is empty |
| Adlist.Dup | redis-4.0.6/src/adlist.c:250-281 | a list of new nodes with the copied values; nothing if a value cannot be copied; the original is not touched |
| Adlist.Iter.Next | redis-4.0.6/src/adlist.c:229-240 | the next node in either direction, null at the end |
| Adlist.Meet | redis-4.0.6/src/adlist.c:212-240 | deleting the node just returned leaves the iterator on the one after it, in either direction |
| Adlist.DeleteWhileWalking | redis-4.0.6/src/adlist.c:212-240 | from either end, every element is met once, in order, and the list keeps exactly those not deleted |
| Timers.AddMillisecondsToNow | redis-4.0.6/src/ae.c:190-202 | the time is exactly that much later, in normal form for a delay that is not negative |
| Timers.ReachedIsTotal | redis-4.0.6/src/ae.c:316-318 | comparing seconds and then milliseconds is comparing milliseconds, for a time in normal form; for one that a negative delay put out of it the timer waits for its second and is never early |
| Timers.EventLoop.CreateTimeEvent | redis-4.0.6/src/ae.c:204-221 | a new timer at the head with a fresh id |
| Timers.EventLoop.DeleteTimeEvent | redis-4.0.6/src/ae.c:223-234 | marks the one live timer with that id, and says whether there was one |
| Timers.EventLoop.SearchNearestTimer | redis-4.0.6/src/ae.c:247-260 | a timer whose time in milliseconds is at most that of any other, if no delay was negative; null for an empty list |
| Timers.EventLoop.Perform | redis-4.0.6/src/ae.c:204-234 | a callback's creations and deletions, in any order and number: new timers in front, the rest in place with exactly the named ids marked |
| Timers.EventLoop.Unlink | redis-4.0.6/src/ae.c:294-305 | taking out one timer keeps the chain, whichever way it is reached |
| Timers.EventLoop.ProcessTimeEvents | redis-4.0.6/src/ae.c:263-335 | the timers fired, in order, are those present at the start that are alive when visited and whose time in milliseconds the clock read at the visit has reached; the list is what the callbacks created followed by every timer not found dead, less the new timers lost; none is lost exactly when the condition below holds; ids and times of all of them; times stay in normal form while no delay is negative |
| Timers.NoneLostMeans | redis-4.0.6/src/ae.c:294-305 | no new timer is lost if and only if no finalizer creates one when its timer, every timer before it and the next one are found dead |
| Timers.FiredOnce | redis-4.0.6/src/ae.c:316-332 | a timer fires if and only if it is not marked at its visit and the clock in milliseconds is not before its time, and it fires once |
| Timers.SkewFiresAll | redis-4.0.6/src/ae.c:277-283 | after the clock went back every timer alive at its visit fires |
| Timers.KeptOnce | redis-4.0.6/src/ae.c:294-305 | a timer leaves the list if and only if it was marked before its visit; none is lost or repeated |
| Bio.StepInv | redis-4.0.6/src/bio.c:131-216 | every step of a producer or the worker keeps the invariant of lock, list, counter and history |
| Bio.RunsInOrder | redis-4.0.6/src/bio.c:131-216 | over every interleaving, jobs run exactly once in the order they were queued |
| Bio.UnlinksWhatItRan | redis-4.0.6/src/bio.c:207-214 | the node unlinked after relocking is the first, and the one whose job ran last |
| Bio.PendingMeans | redis-4.0.6/src/bio.c:219-225 | with the lock free the counter is the length of the list, and zero means every job created has run |
| Issues.SavedKeeps | app/algorithms/algorithms.py:218-239 | a check keeps at most one unresolved record per asset and algorithm; its record counts one occurrence more, or is new with the first; what was acknowledged or noted on it stays, and a new one is acknowledged exactly if the check passed |
| Issues.Tracker.SaveResult | app/algorithms/algorithms.py:218-239 | continues the unresolved record or creates one |
| Issues.Tracker.HandleResult | app/event_handler/event_handler.py:9-30 | notifies exactly a failed result of sufficient priority on its first occurrence |
| Issues.Tracker.CheckOne | app/algorithms/algorithms.py:88-101 | alerts exactly when the check failed, its priority suffices and nothing was unresolved before |
| Issues.Tracker.RunAlgorithms | app/algorithms/algorithms.py:78-101 | in whatever order the algorithms come, the records left to deactivate are the active ones whose algorithm did not run |
| Issues.Tracker.CheckAsset | app/algorithms/algorithms.py:58-105 | afterwards the asset's active records are exactly those whose algorithm ran and failed; other assets are untouched; exactly the algorithms that failed with nothing unresolved and a priority below the email or the CMMS trigger of the site alert, once each |
| Issues.Tracker.Submit | app/controllers.py:240-256 | an unresolved record in scope gets its note and is acknowledged exactly if it was chosen; a chosen one is acknowledged in any case; nothing else changes, and nothing at all when a note or an id is missing |
| Issues.SubmitOpensNothing | app/controllers.py:433-447 | acknowledging never makes a record unresolved, and an active one stays unresolved |
| Issues.Tracker.Run | app/controllers.py:463-477 | over every run of checks and acknowledgements there is at most one unresolved record per asset and algorithm |

## Left out

- Fork, fsync, sockets, logging, latency sampling and memory allocation failure: outcomes of calls are parameters or absent.
- MULTI/EXEC at the end of a truncated file, the RDB preamble, module types, scripts and replication.
- The loader's exits on an unknown command and on a truncated file with `aof-load-truncated no`.
- Arguments and data sets beyond the limits of the C types: the theorems about files assume arguments the loader accepts, which `AofProtocol.LogAccepted` derives from the commands sent and the data sets forked.
- Overflow of `long long` in expiry times: they are unbounded integers.
- A SET whose overridden EX or PX operand is not an integer, and command names in mixed case.
- Sorted-set scores are identified with their 17-digit decimal text.
- Failures of `fstat` and the closing of descriptors.
- AofServer.Server.Flush: says which fsync is made, not what the disk does with it; the reuse of the buffer's memory is not modelled.
- Dataset.ManyAgree: that agreement is kept exactly when the command is safe is not shown for commands on several keys, whose effect is arbitrary.
- Commands not among those modelled: BLPOP, BRPOP and BRPOPLPUSH, SORT and GEORADIUS with STORE, SPOP with a count, ZADD with options, the HyperLogLog commands, MIGRATE, RESTORE-ASKING and RESTORE of an empty container, and commands of scripts and modules.
- Commands refused for their arguments before a key is looked up; modelled as looked up first, except for SET, SETEX, PSETEX and the commands on several keys.
- Lazy freeing, with which an expired key is propagated as an UNLINK.
- Bit fields of 64 bits, where the code shifts by the width of the type; parsing of the arguments of bit commands.
- KeyspaceData.Run: a master that is not loading; the commands that change a value in place are not among the commands, nor are MOVE and SWAPDB in cluster mode, which refuses them.
- AofRun.Serve: between two restarts; a server that exits on a write error ends the run.
- Bitop.BitopCommand: gives the string to store; storing it or deleting the key is part of the keyspace operations.
- Random keys, scanning, blocked clients, watched keys, notifications, LRU data and asynchronous deletion in `db.c`.
- Keyspace.Server.SetExpire: the list of expiring keys kept by a writable slave is not modelled.
- The keyspace has one client; other clients differ only in the database they have selected.
- Adlist.List.Join: of two lists that share no node; joining a list to itself is not modelled. The `free` method of a list has no effect on its structure.
- Bio.PendingMeans: liveness (that a waiting worker is eventually woken) is not stated; killing the threads and waiting for one step are left out, and the job itself is opaque. The job list is a sequence of addressed nodes, since `Adlist.List` models the list itself.
- The numeric checks of `app/algorithms`, asset health, points, timestamps, and edits through the administration screens.
- Issues.Tracker.Submit: one method for the three handlers, which differ in which assets are in scope.
