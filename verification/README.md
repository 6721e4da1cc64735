# A verified model of Redis 7.2.10: append only file, blocked clients, ACL rules, bit operations, CRC64 and config rewriting

The project models the parts of Redis 7.2.10 that are a small machine of their own, in Dafny, and
proves what they are for. `dafny verify dfyconfig.toml` checks all of it.

**Append only file.** `AofManifest`, `AofProtocol` and `AofSafety` are the multi-part AOF as a
crash-recovery protocol over files of bytes: a server that logs execution units, writes any number of
bytes of its buffer at a time, rewrites its log in the background and deletes what the rewrite replaced,
with a crash between any two steps; `AofProgress` is what the steps bring about. `AofUnits` is a unit in the log, whole or cut; `AofSnapshot` the file of
a rewrite as the protocol uses it; `AofTorn` a server that goes on inside of a transaction. `AdList` is the
doubly linked list on the heap, and `AofLists` the move of INCR files to HISTORY on two such lists. `Resp`,
`AofLog` and `AofFile` are the bytes of the log: how commands are framed, which SELECT commands are added,
and how any prefix of the bytes is loaded; `AofDamage` is how files with annotations or damage are. `AofRewrite`, `AofRebuild` and `AofRio` are the rewrite of the log
from the dataset. `Bio` and `BioFsync` are the background worker, at the grain of its lock, with the writes
and the fsync of the append only file.

**Blocked clients.** `BlockedIndex` is the two-way index between clients and keys with its counts, and
`Blocked` the server that blocks, signals, serves and unblocks clients.

**ACL.** `AclRules` is the text of command rules and its edit in place; `AclCommands` the command table
and what a rule means; `AclMeaning` what each operation allows and denies, by its text; `AclReplay` the theorem that the kept rules rebuild the permissions;
`AclBounds` what operations need of the table of first arguments; `AclSelector` and `AclUser` the bitmap,
the first arguments, the text and the description in memory.

**Bits.** `Bits`, `BitField`, `BitFieldCommand`, `BitPos`, `BitPosCommand`, `BitCount`,
`BitCountCommand` and `BitOp` are BITFIELD, BITPOS, BITCOUNT and BITOP on strings of bytes. `Crc64` and
`CrcSpeed` are the checksum bit by bit and eight bytes at a time, and `CrcPolynomial` is the remainder it is.

**Config.** `ConfigRewrite` is the state of CONFIG REWRITE: lines that are reused, appended and blanked. Machine integers are written out where they matter: 64-bit bit vectors for CRC and for the ACL bitmap,
32-bit ones for the population count, explicit reduction modulo 2^64 in `BitField`. Elsewhere numbers
are unbounded, within the limits that the types of the source set. Alignment is a parameter.

Some things that one might expect do not hold of the code. Each is stated as it is, with an input and with
the exact condition.

- A write that is cut inside of a command of a transaction makes the loader truncate the file inside of this
  transaction. What a restarted server appends there is queued in it, and lost until an EXEC follows; that one
  also executes the half of the torn transaction that was never written as a whole.
  `AofUnits.TornTransaction` is such a file and `AofTorn.TornRun` a run that leads to one; `AofTorn.TornLoses`
  and `AofTorn.TornRevives` say what is recovered, for every such state and every next unit.
  `AofTorn.RestartExactly` says that whatever comes next is recovered, and no more, if and only if the truncated
  file does not end inside of a transaction. Recovery is right for all runs without such a restart
  (`AofSafety.CrashSafety`).
- BITFIELD SET with saturation leaves the wrong end of the range in a signed field when the distance of the
  value to the maximum does not fit in a signed 64-bit number, and in an unsigned field when the value is
  negative; otherwise the right one (`BitFieldCommand.SetSaturates`, `BitFieldCommand.SetStrays`).
- Command numbers are handed out without bound, and the table of first arguments has 1024 entries. The 1024th
  name gets the number 1024 (`AclUser.CommandIds.NumberAll`), and an operation stays inside of the table if and
  only if the numbers it uses there are below 1024 (`AclBounds.ReachExactly`).

## Model

| member | source | states |
|---|---|---|
| `AofManifest.NewIncrSound` | redis-7.2.10/src/aof.c:457-466 | a new INCR file gets a fresh, larger number; the manifest stays sound: increasing INCR numbers, names that fit their numbers, HISTORY disjoint from the live files |
| `AofManifest.RewriteSound` | redis-7.2.10/src/aof.c:429-524 | taking a new BASE and turning all INCR files but the last into HISTORY keeps the manifest sound |
| `AofManifest.LoadOfLines` | redis-7.2.10/src/aof.c:194-384 | reading the lines of a sound manifest back gives the manifest, without the dirty mark |
| `AofManifest.LoadExactly` | redis-7.2.10/src/aof.c:296-362 | on any lines: the manifest is accepted if and only if there is a line, all numbers are positive, at most one is a BASE file and the INCR numbers increase; then it has the lines of each type in their order, and the last numbers |
| `AofSafety.FlushKeeps` | redis-7.2.10/src/aof.c:1131-1215 | writing any number of bytes of the buffer to the open INCR file, also a part of a command, keeps the invariant |
| `AofSafety.UndoKeeps` | redis-7.2.10/src/aof.c:1167-1213 | so does cutting a short write off again, or taking it off the buffer if that fails |
| `AofSafety.ExecKeeps` | redis-7.2.10/src/aof.c:1322-1361 | so does executing a unit and feeding it, with SELECT where the database changes, to the buffer |
| `AofSafety.BeginRewriteKeeps` | redis-7.2.10/src/aof.c:2439-2446 | so does forgetting the selected database before a rewrite, in whichever file the next command is written |
| `AofSafety.OpenIncrKeeps` | redis-7.2.10/src/aof.c:792-817 | creating the next INCR file, which nothing names yet, keeps the invariant |
| `AofSafety.PersistIncrKeeps` | redis-7.2.10/src/aof.c:792-855 | persisting the manifest with the new INCR file and forking keep the invariant; so does a fork that fails |
| `AofSafety.ChildKeeps` | redis-7.2.10/src/aof.c:2347-2408 | what the child writes to its temporary file is seen by no recovery |
| `AofSafety.ChildFinishesKeeps` | redis-7.2.10/src/aof.c:2347-2408 | the file that the child leaves, for the dataset of the fork in any order of iteration, loads to this dataset |
| `AofSafety.RenameBaseKeeps` | redis-7.2.10/src/aof.c:2601-2623 | renaming the child's file to the new BASE name changes nothing that recovery reads |
| `AofSafety.PersistRewriteKeeps` | redis-7.2.10/src/aof.c:2662-2693 | the manifest switch makes recovery read the new BASE and the last INCR file, with the same dataset |
| `AofSafety.RewriteFailedKeeps` | redis-7.2.10/src/aof.c:2667-2678 | a failed switch, after which the new BASE file is deleted, leaves the old files in force |
| `AofSafety.UnlinkKeeps` | redis-7.2.10/src/aof.c:670-694 | deleting a HISTORY file never deletes a live one |
| `AofSafety.StartBaseKeeps` | redis-7.2.10/src/aof.c:715-770 | writing the first BASE file keeps the invariant |
| `AofSafety.StartIncrKeeps` | redis-7.2.10/src/aof.c:715-770 | so does creating the first INCR file |
| `AofSafety.StartManifestKeeps` | redis-7.2.10/src/aof.c:715-770 | the first manifest is persisted after its files exist |
| `AofSafety.RestartKeeps` | redis-7.2.10/src/aof.c:1651-1774 | a server that starts loads each file with a client of its own, truncates the last one, and has exactly the units that were written as a whole; the invariant holds unless the file ends inside of a transaction |
| `AofSafety.StepKeeps` | redis-7.2.10/src/aof.c:429-855 | every step of server, child and disk, and every crash, keeps the invariant; a restart does unless the open file ends inside of a transaction |
| `AofSafety.RunKeeps` | redis-7.2.10/src/aof.c:2427-2744 | the invariant holds after every run without such a restart |
| `AofSafety.CrashSafety` | redis-7.2.10/src/aof.c:2427-2744 | after any run without such a restart, crashes and torn writes included: the manifest on disk loads, every BASE and INCR file it names exists, none is in HISTORY, no file but the last is truncated, and loading them in order gives the dataset of exactly the units of which every byte was written |
| `AofSafety.BufferedSuffix` | redis-7.2.10/src/aof.c:1322-1361 | a running server's dataset is what can be recovered and then the units of which bytes are missing, in order |
| `AofProgress.RewriteBegins` | redis-7.2.10/src/aof.c:792-855 | after any run, an idle server with an empty buffer goes on in a new, empty INCR file with the next number, listed last; a child has the dataset of this moment; what can be recovered is that dataset |
| `AofProgress.RewriteDoesNotBegin` | redis-7.2.10/src/aof.c:792-855 | a file that cannot be opened, or a manifest that cannot be written, leaves the manifests of the disk and of the server as they were |
| `AofProgress.RewriteTakesEffect` | redis-7.2.10/src/aof.c:2662-2683 | the manifest on disk then has a BASE file with the next number that loads to the dataset of the fork, as INCR exactly the file that is open, and as HISTORY exactly the old BASE, the other INCR files and the old HISTORY; the server has the same manifest and no child; what can be recovered is the same |
| `AofProgress.RewriteFails` | redis-7.2.10/src/aof.c:2667-2678 | a child that dies, a rename that fails or a manifest that cannot be written leaves the manifest, and none of the files of the rewrite |
| `AofProgress.CollectEmpties` | redis-7.2.10/src/aof.c:670-694 | deleting the HISTORY files one by one and persisting: those files and no others are gone, the manifest on disk has no HISTORY, and what can be recovered is the same |
| `AofProgress.RewriteEnds` | redis-7.2.10/src/aof.c:2584-2693 | from any reachable state with a child at work, if nothing fails from then on: the new BASE file and the open INCR file are all that the manifest lists, every file they replace and the temporary file are gone, all other files and the dataset are as they were, and what can be recovered is the same |
| `AofProgress.LoggedIsRecovered` | redis-7.2.10/src/aof.c:1131-1215 | after any run, a unit that is executed changes the dataset as its commands do, and once the buffer is written, recovery gives the server's dataset with it |
| `AofProgress.ShortWriteLosesNothing` | redis-7.2.10/src/aof.c:1150-1213 | a short write appends exactly that many bytes; if it is cut off the state is as before, else file and buffer together have the same bytes |
| `AofProgress.RestartRecovers` | redis-7.2.10/src/aof.c:1651-1774 | after any run and a crash, the next server has the recovered dataset, unless the open file ends inside of a transaction, and the files it leaves recover to the same |
| `AofProgress.FirstServerStarts` | redis-7.2.10/src/aof.c:715-770 | on an empty disk: a BASE file and an empty INCR file with number 1, listed by the manifest, and an idle server |
| `AofProgress.StartsExactly` | redis-7.2.10/src/aof.c:1699-1757 | on any disk and any manifest: the server starts if and only if the manifest is accepted, every live file exists, none is damaged and none but the last is cut off; then it has executed all of them in order |
| `AofTorn.TornLoses` | redis-7.2.10/src/aof.c:1596-1628 | a single command that is executed and written as a whole, after a restart on a file that ends inside of a transaction, is not recovered |
| `AofTorn.TornRevives` | redis-7.2.10/src/aof.c:1553-1563 | a unit of several commands is, and with it exactly those commands of the torn unit that were whole, although their unit was not: it is stated which, by the bytes that were written |
| `AofTorn.TornRun` | redis-7.2.10/src/aof.c:1150-1213 | for any two commands: a server starts on an empty disk, executes them as a transaction, writes up to inside of the second one, and crashes; the file then ends inside of the transaction |
| `AofTorn.RestartExactly` | redis-7.2.10/src/aof.c:1580-1628 | after any run that ended in a crash, whatever unit comes next is recovered, and no more than it, if and only if the truncated file does not end inside of a transaction |
| `AofUnits.UnitWhole` | redis-7.2.10/src/aof.c:1550-1563 | a unit that is whole in the log is executed, each command in its database |
| `AofUnits.UnitCut` | redis-7.2.10/src/aof.c:1550-1589 | a unit of which a command is missing is not executed at all |
| `AofUnits.FeedsOfUnit` | redis-7.2.10/src/server.c:3343-3383 | several commands of a unit are fed between MULTI and EXEC, with their SELECT commands inside |
| `AofUnits.RunUnits` | redis-7.2.10/src/aof.c:1471-1578 | units after a log are executed in order, and leave the client in the selected database |
| `AofUnits.CutUnits` | redis-7.2.10/src/aof.c:1471-1628 | every prefix of a log executes exactly the units that are whole in it |
| `AofUnits.AppendAfterLoad` | redis-7.2.10/src/aof.c:1471-1628 | for any prefix of any log: loading, truncating, appending commands without a transaction and loading again executes what was executed and then these commands, if and only if no transaction is open in the truncated file |
| `AofUnits.UnitAfterLoad` | redis-7.2.10/src/aof.c:1471-1628 | the same for a unit of several commands: if and only if no transaction is open, or what is left of it executes nothing |
| `AofUnits.UnitCloses` | redis-7.2.10/src/aof.c:1550-1563 | a unit of several commands that is appended inside of a transaction closes it: what was left of it is executed, and then the unit |
| `AofUnits.TornTransaction` | redis-7.2.10/src/aof.c:1596-1628 | MULTI, SELECT, a command and one byte of the next: the file is truncated inside of the transaction; a command that is appended is not executed, and a unit of several commands is, behind the half of the torn one |
| `AofSnapshot.RewriteRebuilds` | redis-7.2.10/src/aof.c:2237-2338 | the file of a rewrite loads as a whole to the dataset, for any semantics of commands in which those that a rewrite writes, in the form in which it writes them, do what they do, and which leaves no empty aggregate |
| `AofSnapshot.DoneEmitted` | redis-7.2.10/src/aof.c:2277-2313 | a rewrite writes only SET and PEXPIREAT without options, and RPUSH, SADD, ZADD and HMSET with whole items |
| `AofSnapshot.ExecuteWorks` | redis-7.2.10/src/aof.c:2277-2313 | the commands of a rewrite are such a semantics |
| `AofSnapshot.ExecuteMoreWorks` | redis-7.2.10/src/t_string.c:116-124 | so are they together with SET that has an expire time |
| `AdList.List.LinkNodeHead` | redis-7.2.10/src/adlist.c:103-114 | prepends the node; head, tail, len and both link directions stay consistent |
| `AdList.List.LinkNodeTail` | redis-7.2.10/src/adlist.c:136-147 | appends the node, consistently |
| `AdList.List.UnlinkNode` | redis-7.2.10/src/adlist.c:192-206 | takes the node out from wherever it is; the order of the others stays |
| `AdList.List.AddNodeHead` | redis-7.2.10/src/adlist.c:89-98 | the values become the new value and then the old ones |
| `AdList.List.AddNodeTail` | redis-7.2.10/src/adlist.c:122-131 | the values become the old ones and then the new value |
| `AdList.List.InsertAfter` | redis-7.2.10/src/adlist.c:149-176 | a new node directly after the given one, all others in order |
| `AdList.List.InsertBefore` | redis-7.2.10/src/adlist.c:149-176 | a new node directly before the given one, all others in order |
| `AdList.List.DelNode` | redis-7.2.10/src/adlist.c:182-187 | deletes exactly the given node |
| `AdList.List.Empty` | redis-7.2.10/src/adlist.c:57-72 | the loop over the nodes leaves the empty list |
| `AdList.List.Index` | redis-7.2.10/src/adlist.c:346-358 | the node at a position from the head, or from the tail if negative; null exactly outside of the list |
| `AdList.List.RotateTailToHead` | redis-7.2.10/src/adlist.c:361-373 | the last node becomes the first, the rest keep their order |
| `AdList.List.RotateHeadToTail` | redis-7.2.10/src/adlist.c:376-388 | the first node becomes the last, the rest keep their order |
| `AdList.List.Join` | redis-7.2.10/src/adlist.c:392-408 | all nodes of the other list are appended in order, and the other list is empty |
| `AdList.Iter.Next` | redis-7.2.10/src/adlist.c:255-266 | returns the node it holds and has already moved past it |
| `AdList.Sweep` | redis-7.2.10/src/adlist.c:241-266 | an iteration that deletes only the node just returned visits each original element once, in order, and leaves those not deleted |
| `AofLists.MarkRewrittenIncrAofAsHistory` | redis-7.2.10/src/aof.c:494-524 | on the two linked lists: the INCR files, but for the last one while it is open, move in front of HISTORY in their order, exactly as the protocol's manifest operation says |
| `AofLists.MoveRest` | redis-7.2.10/src/aof.c:512-521 | the loop with the iterator from the tail moves all nodes left, each unlinked after the iterator passed it |
| `Resp.ReadDecimal` | redis-7.2.10/src/aof.c:1497-1519 | a count written in decimal is read back by strtol and atoi up to the end of the line |
| `Resp.CommandWhole` | redis-7.2.10/src/aof.c:1487-1537 | a command that is whole in the file is read back exactly, with what follows it left |
| `Resp.CommandCut` | redis-7.2.10/src/aof.c:1487-1537 | a command cut anywhere, also inside of a number or a line end, is seen as a short read at the end of the file |
| `Resp.ParseShrinks` | redis-7.2.10/src/aof.c:1487-1537 | on any bytes, reading a command or an annotation consumes some of them |
| `AofFile.CatGenericCommand` | redis-7.2.10/src/aof.c:1270-1293 | appends the framed command: counts and lengths that match, arguments of any bytes |
| `AofFile.Writer.FeedAppendOnlyFile` | redis-7.2.10/src/aof.c:1322-1361 | the buffer is the log of all commands fed, with a SELECT exactly where the database changes |
| `AofFile.Reader.GetLine` | redis-7.2.10/src/aof.c:1487-1493 | fgets with a buffer of 1024 bytes, and when it meets the end of the file |
| `AofFile.Reader.Read` | redis-7.2.10/src/aof.c:1521-1536 | fread of one block: all of it, or nothing and the end of the file |
| `AofFile.Reader.ReadArg` | redis-7.2.10/src/aof.c:1509-1536 | one argument as the framing says, or the reason why there is none |
| `AofFile.Reader.ReadArgs` | redis-7.2.10/src/aof.c:1508-1537 | the loop over the arguments reads what the framing says, or reports why it cannot |
| `AofFile.Reader.ReadCommand` | redis-7.2.10/src/aof.c:1487-1537 | on any bytes: a command, an annotation, the end, a short read, a read error or a format error |
| `AofFile.LoadSingleAppendOnlyFile` | redis-7.2.10/src/aof.c:1471-1648 | on any bytes: the outcome, the executed commands and the length the file is truncated to |
| `AofLog.LoadFromWhole` | redis-7.2.10/src/aof.c:1471-1628 | from any whole command on, loading a prefix executes exactly its whole commands and stops with the right truncation point |
| `AofLog.NothingSinceMulti` | redis-7.2.10/src/aof.c:1550-1589 | while a transaction is open nothing was executed since the last MULTI, nested ones included |
| `AofLog.FlatRun` | redis-7.2.10/src/aof.c:1552-1563 | queueing in MULTI and running at EXEC keep the order of the commands and the selected databases |
| `AofLog.PlainMatches` | redis-7.2.10/src/aof.c:1336-1345 | the SELECT commands that feeding adds put every command in the database it was fed with |
| `AofLog.InPlaceExactly` | redis-7.2.10/src/aof.c:1336-1345 | whatever is fed, SELECT included: every command is executed in its database if and only if each for which no SELECT is written finds its database selected |
| `AofLog.RunMatches` | redis-7.2.10/src/aof.c:1550-1589 | executed are the commands outside of an unfinished transaction, and no others |
| `AofLog.LoadRuns` | redis-7.2.10/src/aof.c:1471-1628 | loading a prefix of a log runs its whole commands; it truncates to their end, or to the last MULTI if the file ends between two commands of a transaction |
| `AofLog.LoadOfPrefix` | redis-7.2.10/src/aof.c:1471-1628 | for any commands fed and any byte prefix of the log: loading does not fail, executes the whole commands outside of an unfinished MULTI, in order and each in its database, and loading the file at the length it was truncated to executes the same |
| `AofDamage.NamesAreSpelt` | redis-7.2.10/src/aof.c:1336-1345 | the names of the commands that the server writes by itself, and of one option, as text |
| `AofDamage.LoadComesTo` | redis-7.2.10/src/aof.c:1471-1578 | for any commands and annotation lines, whatever bytes follow them: loading gets to these bytes with the commands executed and the right truncation points |
| `AofDamage.BadMarkFails` | redis-7.2.10/src/aof.c:1495-1495 | a line that starts with neither * nor #: loading fails, the commands before it were executed, and the file is not cut |
| `AofDamage.UnknownFails` | redis-7.2.10/src/aof.c:1539-1548 | so does a whole command that is not in the command table |
| `AofDamage.NoArgumentsFails` | redis-7.2.10/src/aof.c:1497-1498 | so does a command of no arguments |
| `AofDamage.BadArgumentFails` | redis-7.2.10/src/aof.c:1508-1518 | so does, after the count and any number of arguments, a line that does not start with $ |
| `AofDamage.NegativeLengthFails` | redis-7.2.10/src/aof.c:1519-1522 | so does a negative length |
| `AofDamage.ZeroByteFails` | redis-7.2.10/src/aof.c:1496-1496 | so does a zero byte in place of the count, on a line that ends |
| `AofDamage.WholeLoads` | redis-7.2.10/src/aof.c:1580-1594 | a file that ends behind a command or an annotation is loaded and keeps its length, unless a transaction is open: then it is cut behind the last command in front of it |
| `AofDamage.TornLoads` | redis-7.2.10/src/aof.c:1596-1628 | a file that ends inside of a command is cut behind the last whole command; annotations after that one go |
| `AofDamage.NoteIsSkipped` | redis-7.2.10/src/aof.c:1494-1494 | an annotation between the commands of two logs changes neither what is executed nor the outcome |
| `AofDamage.SetFooIs` | redis-7.2.10/src/aof.c:1270-1293 | the framing of SET foo hello, as text |
| `AofDamage.BadFormatSample` | redis-7.2.10/tests/integration/aof.tcl:69-74 | the file of the test for bad format: loading fails, with the first command executed |
| `AofLog.FedSelectStrays` | redis-7.2.10/src/aof.c:1336-1345 | a SELECT that is fed like other commands sends a later command to another database |
| `AofRewrite.ChunksBuild` | redis-7.2.10/src/aof.c:1796-2008 | the commands for the items of an aggregate, in pieces, do what one command with all items would |
| `AofRewrite.AddAllConcat` | redis-7.2.10/src/aof.c:1796-2008 | adding items in two pieces is adding them at once |
| `AofRewrite.ReadShown` | redis-7.2.10/src/rio.c:505-511 | a 64-bit number written in decimal reads back |
| `AofRewrite.ChunksAreSmall` | redis-7.2.10/src/aof.c:1802-1830 | every command but the last has 64 items, the last at most as many and not none, and all are for the key |
| `AofRewrite.ObjectBuilds` | redis-7.2.10/src/aof.c:1796-2008 | adding the items of a list, set, sorted set or hash to an empty one gives its value |
| `AofRebuild.ItemBuilds` | redis-7.2.10/src/aof.c:2265-2313 | the commands for a key build its value and its expire time, and touch no other key |
| `AofRebuild.DbBuilds` | redis-7.2.10/src/aof.c:2265-2329 | the commands for a database build its keys that have a value, and leave other databases alone |
| `AofRebuild.ServerBuilds` | redis-7.2.10/src/aof.c:2253-2332 | executing the commands for all databases on empty ones builds every key that has a value |
| `AofRebuild.RebuildsExactly` | redis-7.2.10/src/aof.c:2237-2338 | the dataset is rebuilt if and only if no key holds an empty aggregate |
| `AofRebuild.RewriteLoads` | redis-7.2.10/src/aof.c:2237-2338 | the bytes of the rewritten file load without failing and at their full length; what they execute rebuilds the dataset if and only if no key holds an empty aggregate |
| `AofRio.Rio.WriteBulkString` | redis-7.2.10/src/rio.c:495-502 | appends the framed string, of any bytes |
| `AofRio.Rio.RewriteAggregate` | redis-7.2.10/src/aof.c:1796-1834 | the loop with its counters of items writes well framed commands: each declared count is the number of arguments that follow |
| `AofRio.Rio.RewriteObject` | redis-7.2.10/src/aof.c:2277-2299 | appends the framed commands for a value |
| `AofRio.Rio.RewriteExpire` | redis-7.2.10/src/aof.c:2307-2313 | appends PEXPIREAT exactly if the key expires |
| `AofRio.Rio.RewriteItems` | redis-7.2.10/src/aof.c:2265-2329 | appends the framed commands for a database |
| `AofRio.Rio.RewriteAppendOnlyFile` | redis-7.2.10/src/aof.c:2253-2332 | the bytes written are the framing of the commands for all databases |
| `Bio.OrderlyKept` | redis-7.2.10/src/bio.c:152-322 | every step of the main thread and of the worker keeps the lock, the queue, the counters and the drain consistent |
| `Bio.LockedMain` | redis-7.2.10/src/bio.c:152-322 | the main thread keeps that the lock is owned by who is inside of its critical section |
| `Bio.LockedWorker` | redis-7.2.10/src/bio.c:205-300 | so does the worker |
| `Bio.CountedMain` | redis-7.2.10/src/bio.c:152-322 | the main thread keeps the counters right but between append and increment |
| `Bio.CountedWorker` | redis-7.2.10/src/bio.c:205-300 | so does the worker, between removal and decrement |
| `BioFsync.DurableKept` | redis-7.2.10/src/aof.c:836-840 | every step keeps that files no longer written are covered by a submitted job |
| `BioFsync.WorkerIsOrderly` | redis-7.2.10/src/bio.c:205-322 | on every interleaving: jobs complete in submission order, while the lock is free a counter is the number of queued or running jobs of its type, what bioPendingJobsOfType reads is right, and a drain returns only after all earlier jobs |
| `BioFsync.StoredMeansSynced` | redis-7.2.10/src/bio.c:259-277 | while no fsync failed, a stored offset means that all bytes that any file, old or new, had when its job was made have been fsynced |
| `BioFsync.StoredOffset` | redis-7.2.10/src/bio.c:259-277 | while no fsync failed, a stored offset was the replication offset at some state of the run, and every byte that any file had in that state has been fsynced |
| `BioFsync.LatestIsStored` | redis-7.2.10/src/bio.c:259-277 | while no fsync failed, what is stored is the offset of the last job that was done, on every interleaving |
| `BioFsync.NobodyIsStuck` | redis-7.2.10/src/bio.c:152-322 | while there is a job, or the main thread is inside of a call, one of the two threads can go on |
| `BioFsync.SubmissionCompletes` | redis-7.2.10/src/bio.c:152-160 | a submission that finds the lock free appends the job with the file, offset and type of the call, counts it and frees the lock; a switch leaves the new file open |
| `BioFsync.TurnCompletes` | redis-7.2.10/src/bio.c:227-299 | a turn of the worker does the first job: its file is fsynced up to what was written, its offset stored, the job removed and its type counted down |
| `BlockedIndex.TwoWay` | redis-7.2.10/src/blocked.c:368-437 | in a consistent state a client is in the list of a key exactly once if the key is in its own table, and else not at all |
| `BlockedIndex.OnceInList` | redis-7.2.10/src/blocked.c:379-411 | no client is in a list twice |
| `BlockedIndex.EnterConsistent` | redis-7.2.10/src/blocked.c:379-411 | one more key for a client keeps lists, tables and the counts of clients that wait for missing keys consistent |
| `BlockedIndex.ReleaseConsistent` | redis-7.2.10/src/blocked.c:516-549 | so does releasing one: no empty list stays, and a count is dropped at zero |
| `BlockedIndex.CountIsThere` | redis-7.2.10/src/blocked.c:538-546 | the asserted count entry exists and is positive |
| `BlockedIndex.TallyBlock` | redis-7.2.10/src/blocked.c:88-99 | blocking a client keeps the total and the counters by type equal to the true numbers |
| `BlockedIndex.TallyUnblock` | redis-7.2.10/src/blocked.c:215-220 | so does unblocking one |
| `BlockedIndex.ForgetConsistent` | redis-7.2.10/src/networking.c:1607-1607 | the index stays consistent when a client goes away that waits for nothing |
| `Blocked.Server.NewClient` | redis-7.2.10/src/blocked.c:75-83 | a new client waits for nothing |
| `Blocked.Server.BlockClient` | redis-7.2.10/src/blocked.c:88-99 | flag, type and counters of the client, nothing else |
| `Blocked.Server.EnterKeys` | redis-7.2.10/src/blocked.c:379-411 | the loop over the keys: each key once in the table, the client last in each list |
| `Blocked.Server.BlockForKeys` | redis-7.2.10/src/blocked.c:368-419 | the client is at the end of the list of each of its keys, once, and in no other; repeated keys are skipped; all invariants stay |
| `Blocked.Server.ReleaseBlockedEntry` | redis-7.2.10/src/blocked.c:516-549 | the client leaves one list, the others are unchanged |
| `Blocked.Server.UnblockClientWaitingData` | redis-7.2.10/src/blocked.c:423-437 | the client leaves all lists and its table is empty |
| `Blocked.Server.QueueClientForReprocessing` | redis-7.2.10/src/blocked.c:173-180 | the client is in the queue of unblocked clients, and not twice |
| `Blocked.Server.UnblockClient` | redis-7.2.10/src/blocked.c:184-224 | the client waits for nothing, is queued once if asked, and the order of the others stays in every list |
| `Blocked.Server.UnblockClientOnTimeout` | redis-7.2.10/src/blocked.c:709-714 | the same, with the pending command dropped |
| `Blocked.Server.TakeUnblocked` | redis-7.2.10/src/blocked.c:129-134 | the first of the unblocked clients leaves the queue |
| `Blocked.Server.FreeClient` | redis-7.2.10/src/networking.c:1488-1495 | a client that goes away leaves all lists, tables, counts and the queue, and the order of the others stays |
| `Blocked.Server.SignalKeyAsReady` | redis-7.2.10/src/blocked.c:456-503 | the key is appended if and only if it is not queued, a client waits for it, or has asked for its deletion if it was deleted, and some client waits with the type of the object; always if a client waits that would be served |
| `Blocked.Server.UnblockClientOnKey` | redis-7.2.10/src/blocked.c:640-679 | the client leaves all lists, executes its command again, and if it waits again is at the end of the lists of its keys, with the type it waits with now; if not it is queued; every key that the command signals and that another client waits for is ready |
| `Blocked.Server.Visit` | redis-7.2.10/src/blocked.c:578-595 | one client of the list: it is executed exactly if it asked to be called when the key goes away or the found object has the type it waits for, list, sorted set or stream; then it is moved to the end if it waits again |
| `Blocked.Server.VisitNext` | redis-7.2.10/src/blocked.c:577-596 | one step of the pass: the node the iterator holds is the first one still to be visited, or one that waits again |
| `Blocked.Server.HandleClientsBlockedOnKey` | redis-7.2.10/src/blocked.c:562-598 | each client that waits at the start is visited once, in blocking order, with one lookup each; it is skipped exactly if the found object does not concern it; the list ends as those skipped and then those that wait again, in order; in every list the others keep their order, and clients that were not executed are as they were |
| `Blocked.Server.HandleList` | redis-7.2.10/src/blocked.c:341-355 | there is a pass for every ready key, in order, over the clients that wait for it then, in blocking order; but for clients executed in earlier passes, these are those of the beginning; exactly the clients that the found object concerns are executed, pass after pass, with one lookup for each client that was visited; it blocks no more clients than before |
| `Blocked.Server.HandleClientsBlockedOnKeys` | redis-7.2.10/src/blocked.c:315-359 | the outer loop ends, with no ready key left, if a command that makes its client wait again signals no key; the first passes are those over the keys that were ready, in order; every client that waited for one of them was executed, or was looked at in the pass of the key and skipped because what was found does not concern it; a nested call does nothing |
| `Blocked.NobodyLeftOut` | redis-7.2.10/src/blocked.c:562-598 | a client that waits for a key that is handled was executed in an earlier pass, or is looked at in the pass of the key, as it was at the beginning, and executed unless what was found there does not concern it |
| `AclRules.SplitOfJoin` | redis-7.2.10/src/acl.c:756-760 | splitting the text of rules gives back the rules |
| `AclRules.RuleMatches` | redis-7.2.10/src/acl.c:576-579 | a kept rule is replaced exactly if it is the new one or is under it |
| `AclRules.MoveTail` | redis-7.2.10/src/acl.c:580-583 | memmove inside of the buffer cuts out exactly a piece of the string |
| `AclRules.RemoveCommandRule` | redis-7.2.10/src/acl.c:550-592 | the memmove loop leaves exactly the join of the rules that are neither the new one nor under it, in order, without stray spaces, and ends |
| `AclCommands.ParseIsWell` | redis-7.2.10/src/acl.c:1102-1183 | a rule that is accepted is kept under the lower-case form of what was given |
| `AclCommands.Reparse` | redis-7.2.10/src/acl.c:1102-1183 | the kept text of a rule is accepted again and means the same |
| `AclCommands.LookupIsWell` | redis-7.2.10/src/acl.c:1102-1183 | a command found has, as its full name, the lower-case form of what was asked |
| `AclCommands.TextIsToken` | redis-7.2.10/src/acl.c:596-604 | the text of a kept rule is one word |
| `AclReplay.Absorbs` | redis-7.2.10/src/acl.c:547-592 | a rule decides everything that the rules it replaces decide |
| `AclReplay.DroppingAgrees` | redis-7.2.10/src/acl.c:594-604 | leaving out the replaced rules makes no difference outside of what the new rule decides |
| `AclReplay.EffectKeepsReserved` | redis-7.2.10/src/acl.c:524-529 | no rule on a command, a first argument or a category changes the reserved bit |
| `AclReplay.StepKeepsInv` | redis-7.2.10/src/acl.c:1010-1185 | every operation keeps that the kept rules mean the permissions |
| `AclReplay.StepsOfRules` | redis-7.2.10/src/acl.c:733-786 | applying the kept rules in order gives their meaning, and keeps all of them |
| `AclReplay.ReplayRebuilds` | redis-7.2.10/src/acl.c:733-786 | after any operations on a new selector, applying its kept rules from +@all or -@all, by the reserved bit, gives the same bitmap, first arguments and rules |
| `AclMeaning.NameDecides` | redis-7.2.10/src/acl.c:608-621 | +name allows the command and every subcommand of it and -name denies them, for the name in any case; all other commands are as they were; the first arguments of the command go, and no others |
| `AclMeaning.SubDecides` | redis-7.2.10/src/acl.c:1143-1173 | with a subcommand behind the name, + allows and - denies this subcommand and no other command |
| `AclMeaning.FirstArgAdds` | redis-7.2.10/src/acl.c:1152-1162 | with something behind the name of a command without subcommands, + changes no bit and adds exactly this first argument, in lower case |
| `AclMeaning.CategoryDecides` | redis-7.2.10/src/acl.c:629-642 | +@cat allows and -@cat denies exactly the commands of the category, their subcommands, and the subcommands of the category |
| `AclMeaning.AllDecides` | redis-7.2.10/src/acl.c:1027-1040 | allcommands and +@all allow every command that has a bit, nocommands and -@all none, and no first argument and no rule stays |
| `AclMeaning.UnknownIsRefused` | redis-7.2.10/src/acl.c:1103-1179 | an unknown command or category is an error, and nothing changes |
| `AclMeaning.BadSubIsRefused` | redis-7.2.10/src/acl.c:1135-1150 | so is an unknown subcommand, and an empty one, each with its error |
| `AclMeaning.DeepIsRefused` | redis-7.2.10/src/acl.c:1128-1133 | so is a first argument of a subcommand |
| `AclMeaning.RulesAre` | redis-7.2.10/src/acl.c:596-604 | the operation is kept last, in lower case; of the rules before it exactly those go that are for the same name, whatever their sign, or for something behind it |
| `AclSelector.Permissions.SetAll` | redis-7.2.10/src/acl.c:1027-1040 | all bits, or none, and no first arguments and no table of them |
| `AclSelector.Permissions.ResetFirstArgs` | redis-7.2.10/src/acl.c:903-914 | the loop empties every entry, and there is no table |
| `AclSelector.Permissions.GetCommandBit` | redis-7.2.10/src/acl.c:518-522 | the bit of the command; false if the number does not fit |
| `AclSelector.Permissions.SetCommandBit` | redis-7.2.10/src/acl.c:536-545 | the bit is set for true and clear for false; no other bit changes, and nothing if the number does not fit |
| `AclSelector.Permissions.AddAllowedFirstArg` | redis-7.2.10/src/acl.c:918-944 | one more first argument, none twice, ignoring case; the access is outside of the table exactly if the number is 1024 or more |
| `AclSelector.Permissions.ResetFirstArgsForCommand` | redis-7.2.10/src/acl.c:891-898 | the first arguments of this command go, the others stay; the access is outside of the table exactly if there is one and the number is 1024 or more |
| `AclSelector.Permissions.ChangePerm` | redis-7.2.10/src/acl.c:608-621 | the bits of the command and of all its subcommands, and the command's first arguments, unless that access is outside of the table |
| `AclBounds.ReachExactly` | redis-7.2.10/src/acl.c:891-944 | for each kind of rule the numbers that must be below 1024, once there is a table, for it to stay inside: if and only if |
| `AclBounds.StepBounded` | redis-7.2.10/src/acl.c:596-604 | an operation that stays inside keeps that the rules that are kept do |
| `AclBounds.RulesReach` | redis-7.2.10/src/acl.c:733-786 | as long as the operations on a new selector stay inside, applying the rules that are kept does |
| `AclSelector.Permissions.SetSubcommandsForCategory` | redis-7.2.10/src/acl.c:629-642 | the loop over the subcommands of one command has the effect of the category |
| `AclSelector.Permissions.SetCommandBitsForCategory` | redis-7.2.10/src/acl.c:629-642 | the loops over commands and subcommands together have the effect of the category |
| `AclSelector.SameWords` | redis-7.2.10/src/acl.c:775-777 | bitmaps that allow the same commands are equal word by word |
| `AclUser.Live.UpdateCommandRules` | redis-7.2.10/src/acl.c:596-604 | the replaced rules are removed and the new one is last |
| `AclUser.Live.SetSelector` | redis-7.2.10/src/acl.c:1010-1185 | after a plus and a name the bits of the command and its subcommands are set, after a minus they are clear; bitmap, first arguments and text change as the abstract operation says, and nothing on an error; an access is outside of the table of first arguments exactly if the operation needs a number of 1024 or more |
| `AclUser.Live.Rebuild` | redis-7.2.10/src/acl.c:733-786 | the fake selector built from the rules equals this one, unless they reach out of the table |
| `AclUser.Live.DescribeCommandRules` | redis-7.2.10/src/acl.c:733-786 | no kept rule is refused, the bitmaps are equal so that the panic is unreachable unless the rules reach out of the table, exactly when is stated, and the returned text applied to any selector gives this one |
| `AclUser.DescribedRebuilds` | redis-7.2.10/src/acl.c:733-786 | the described text, split and applied to any selector, gives the described one |
| `AclUser.Live.RecomputeCommandBits` | redis-7.2.10/src/acl.c:647-680 | recomputing from the rules changes nothing while the command table is the same and the rules stay inside of the table of first arguments |
| `AclUser.CommandIds.GetCommandId` | redis-7.2.10/src/acl.c:1506-1531 | one number for a name, different numbers for different names, never the reserved one, and old numbers stay |
| `AclUser.CommandIds.NumberAll` | redis-7.2.10/src/acl.c:1506-1531 | different names get consecutive numbers but for the reserved one; the 1024th gets 1024 |
| `AclUser.NumbersApart` | redis-7.2.10/src/acl.c:1506-1531 | a subcommand shares its number with no command |
| `Bits.BitIsShifted` | redis-7.2.10/src/bitops.c:234-237 | bit k of a byte counts from its most significant bit |
| `BitField.SetUnsignedBitfield` | redis-7.2.10/src/bitops.c:209-222 | the field gets the bits of the value, every other bit is unchanged |
| `BitField.ReadWritten` | redis-7.2.10/src/bitops.c:209-241 | reading a field gives what was written, reduced to its width |
| `BitField.GetUnsignedBitfield` | redis-7.2.10/src/bitops.c:229-241 | the number in the bits of the field; no shift loses a bit |
| `BitField.GetSignedBitfield` | redis-7.2.10/src/bitops.c:243-263 | the same in two's complement |
| `BitField.CheckUnsignedBitfieldOverflow` | redis-7.2.10/src/bitops.c:288-323 | overflow is reported if and only if the exact sum is out of range, with its direction; the limit is the sum modulo 2^bits or the nearest bound |
| `BitField.CheckSignedBitfieldOverflow` | redis-7.2.10/src/bitops.c:325-378 | the same for i1 to i64; and which bound a value far out of range gets |
| `BitFieldCommand.IncrBy` | redis-7.2.10/src/bitops.c:1150-1216 | the field becomes the exact sum, wrapped, saturated, or unchanged on FAIL; all other bits are unchanged |
| `BitFieldCommand.Set` | redis-7.2.10/src/bitops.c:1150-1216 | the field becomes the value, or what the overflow policy makes of it; the reply is the old value |
| `BitFieldCommand.SetSaturates` | redis-7.2.10/src/bitops.c:1162-1209 | what SET with saturation leaves in the field for a value out of range is the nearest bound if and only if the distance to the maximum fits in a signed 64-bit number, for signed types, and the value is not negative, for unsigned ones |
| `BitFieldCommand.SetStrays` | redis-7.2.10/src/bitops.c:1162-1209 | SET of -2^63 to an i8 leaves 127, and SET of -1 to a u8 leaves 255 |
| `BitFieldCommand.Get` | redis-7.2.10/src/bitops.c:1217-1250 | reading through the nine byte buffer equals reading the string continued with zeros |
| `BitFieldCommand.Grow` | redis-7.2.10/src/bitops.c:481-498 | the string is continued with zeros up to the highest bit |
| `BitFieldCommand.HighestWrite` | redis-7.2.10/src/bitops.c:1085-1088 | whether nothing is written, and else the highest bit that is written |
| `BitFieldCommand.Bitfield` | redis-7.2.10/src/bitops.c:1085-1251 | the string grows with zeros to the byte of a highest written bit and no further; the operations are performed in order on it, each as specified, with all accesses in bounds |
| `BitPos.RedisBitpos` | redis-7.2.10/src/bitops.c:101-186 | for every alignment and length the least position of the bit; -1 if no bit is set, the end if none is clear; the panic is unreachable |
| `BitPos.LoadWord` | redis-7.2.10/src/bitops.c:144-159 | the last word, also a partial one, as a 64-bit number padded with zeros |
| `BitPos.ScanWord` | redis-7.2.10/src/bitops.c:168-180 | the loop over a word finds its first such bit |
| `BitPosCommand.Search` | redis-7.2.10/src/bitops.c:957-1002 | with masked edges, also in one byte, the least position in the range, or none |
| `BitPosCommand.BitposOfMissing` | redis-7.2.10/src/bitops.c:895-901 | the least index of the bit in an endless string of zeros, or -1 if there is none |
| `BitPosCommand.Bitpos` | redis-7.2.10/src/bitops.c:905-1003 | the reply is the least index in the clamped range in bytes or bits, -1 if there is none, and without an end the first index past a string of ones |
| `BitPosCommand.ReplyMeans` | redis-7.2.10/src/bitops.c:905-1003 | the least bit, among those from start to end, -1 being the last position, that is as wanted; if there is none, -1, or the first past the string when a zero is wanted and no end is given |
| `BitCount.SwarCounts` | redis-7.2.10/src/bitops.c:66-86 | after the three steps every byte of a word holds the number of its bits |
| `BitCount.AddSums` | redis-7.2.10/src/bitops.c:80-86 | the lanes of seven words are added without overflow |
| `BitCount.AddUp` | redis-7.2.10/src/bitops.c:80-86 | the multiplication and the shift add the four lanes |
| `BitCount.CountBlock` | redis-7.2.10/src/bitops.c:57-86 | 28 bytes at a time: the number of their bits |
| `BitCount.RedisPopcount` | redis-7.2.10/src/bitops.c:40-92 | the number of set bits, for every alignment and length |
| `BitCountCommand.CountRange` | redis-7.2.10/src/bitops.c:861-872 | subtracting the masked edges gives the bits in the range, also when both edges are in one byte |
| `BitCountCommand.HighCount` | redis-7.2.10/src/bitops.c:868-868 | the masked first byte has the bits in front of the range |
| `BitCountCommand.LowCount` | redis-7.2.10/src/bitops.c:869-869 | the masked last byte has the bits behind it |
| `BitCountCommand.Bitcount` | redis-7.2.10/src/bitops.c:811-873 | the number of set bits in the clamped range |
| `BitCountCommand.BitsInMeans` | redis-7.2.10/src/bitops.c:811-873 | the number of set bits among those from start to end, -1 being the last position, or in the whole string; two positions from the end, the second before the first, have none |
| `BitOp.Lookup` | redis-7.2.10/src/bitops.c:643-670 | missing keys are empty strings; the longest length, and one that no source is shorter than |
| `BitOp.FastPath` | redis-7.2.10/src/bitops.c:683-743 | the blocks of four words give the fold of the operation at every byte they cover |
| `BitOp.Block` | redis-7.2.10/src/bitops.c:692-742 | one block of four words gets the fold, and no other byte changes |
| `BitOp.FoldStuck` | redis-7.2.10/src/bitops.c:765-767 | once AND is all zeros or OR all ones, the rest of the sources changes nothing |
| `BitOp.ByteOf` | redis-7.2.10/src/bitops.c:747-770 | the byte loop with its early exit gives the fold over the zero-padded sources |
| `BitOp.Bitop` | redis-7.2.10/src/bitops.c:632-771 | the result has the length of the longest source and at every byte the fold; NOT takes one source |
| `BitOp.BitopMeans` | redis-7.2.10/src/bitops.c:747-770 | every bit of the result, over the sources continued with zeros: AND if all have it, OR if some has it, XOR if an odd number has it, NOT if the source does not have it |
| `BitOp.MaxLenIs` | redis-7.2.10/src/bitops.c:659-670 | the length of the result is that of a source, and no source is longer |
| `Crc64.CrcReflect` | redis-7.2.10/src/crc64.c:69-78 | the loop reverses the 64 bits |
| `Crc64.MirrorBit` | redis-7.2.10/src/crc64.c:69-78 | bit i of a word is bit 63 - i of its reflection |
| `Crc64.MirrorInvolutive` | redis-7.2.10/src/crc64.c:69-78 | reflecting twice gives the word |
| `Crc64.FeedBit` | redis-7.2.10/src/crc64.c:94-104 | one step of the register for one bit |
| `Crc64.FeedByte` | redis-7.2.10/src/crc64.c:93-106 | the loop over the mask feeds the eight bits of a byte, lowest first |
| `Crc64.Crc64Bitwise` | redis-7.2.10/src/crc64.c:88-111 | the bit by bit CRC: the reflected register after all bytes |
| `CrcSpeed.UpdateIsBitwise` | redis-7.2.10/src/crc64.c:88-123 | the reflected register steps right as the plain one steps left: started from reflect(c) it gives the bit by bit CRC started from c |
| `CrcSpeed.UpdateConcat` | redis-7.2.10/src/crc64.c:121-123 | the CRC of a concatenation is the CRC of the second part seeded by that of the first |
| `CrcSpeed.UpdateWord` | redis-7.2.10/src/crcspeed.c:122-135 | up to eight bytes can be added to the register at once |
| `CrcSpeed.EightSlices` | redis-7.2.10/src/crcspeed.c:125-132 | 64 steps of a word are the sum of eight table entries |
| `CrcSpeed.LookupWord` | redis-7.2.10/src/crcspeed.c:125-132 | the eight lookups step the register by 64 bits |
| `CrcSpeed.FillColumn` | redis-7.2.10/src/crcspeed.c:43-49 | one column of the table from its first row |
| `CrcSpeed.CrcSpeed64LittleInit` | redis-7.2.10/src/crcspeed.c:33-50 | entry k, n is the effect of byte n followed by k zero bytes |
| `CrcSpeed.CrcSpeed64Little` | redis-7.2.10/src/crcspeed.c:112-144 | slice-by-8 equals the stepwise register, for every alignment |
| `CrcSpeed.CrcSpeed64BigInit` | redis-7.2.10/src/crcspeed.c:87-95 | the same table with the bytes of every entry reversed |
| `CrcSpeed.Rev8Involutive` | redis-7.2.10/src/crcspeed.c:71-83 | reversing the bytes twice gives the word |
| `CrcSpeed.Rev8Word` | redis-7.2.10/src/crcspeed.c:71-83 | reversing the bytes of a word loaded little-endian gives it loaded big-endian |
| `CrcSpeed.CrcSpeed64Big` | redis-7.2.10/src/crcspeed.c:183-213 | the big-endian variant gives the same value |
| `CrcSpeed.Crc64Init` | redis-7.2.10/src/crc64.c:116-118 | the table of the machine's byte order |
| `CrcSpeed.Crc64Update` | redis-7.2.10/src/crc64.c:121-123 | on both byte orders crc64 from reflect(c) equals the bit by bit CRC from c |
| `CrcSpeed.UpdateInjective` | redis-7.2.10/src/crcspeed.c:112-144 | equal later bytes never merge two different registers |
| `CrcSpeed.BurstDetected` | redis-7.2.10/src/crcspeed.c:112-144 | two messages of equal length that differ only within eight consecutive bytes have different checksums |
| `CrcPolynomial.PolyTerms` | redis-7.2.10/src/crc64.c:33-33 | the constant has exactly the terms of the generator polynomial, which is written out, below the highest |
| `CrcPolynomial.StepRemainder` | redis-7.2.10/src/crc64.c:95-105 | one bit of the register is one step of long division by the generator |
| `CrcPolynomial.RegisterIsRemainder` | redis-7.2.10/src/crc64.c:88-108 | for any start and any data, the register is the remainder of the message polynomial, shifted by 64, plus the start shifted by the bits of the data, divided by the generator |
| `CrcPolynomial.RemainderIsOne` | redis-7.2.10/src/crc64.c:88-108 | there is only one such remainder |
| `CrcPolynomial.CheckValue` | redis-7.2.10/src/crc64.c:135-138 | the checksum of 123456789 is e9c6d914c4b8d9ca |
| `ConfigRewrite.RewriteState.constructor` | redis-7.2.10/src/config.c:1118-1213 | the lines of the old file, with a mark in front of those that cannot be understood, the unused lines of every option in order, and whether the signature is there |
| `ConfigRewrite.RewriteState.AddLineNumberToOption` | redis-7.2.10/src/config.c:1093-1101 | the line is last in the list of its option |
| `ConfigRewrite.RewriteState.MarkAsProcessed` | redis-7.2.10/src/config.c:1107-1111 | the option is processed; no line changes |
| `ConfigRewrite.RewriteState.AppendLine` | redis-7.2.10/src/config.c:1087-1090 | the line is last, and all invariants stay |
| `ConfigRewrite.ReuseOrder` | redis-7.2.10/src/config.c:1244-1253 | a reused line is behind all lines already emitted for its option |
| `ConfigRewrite.RewriteState.RewriteLine` | redis-7.2.10/src/config.c:1231-1265 | reuses the first unused line of the option, or appends, with the signature the first time, or does nothing; no line is used twice |
| `ConfigRewrite.RewriteState.RemoveOrphaned` | redis-7.2.10/src/config.c:1624-1649 | in the end comments and lines of options that nobody processed have the text they had, and the lines of a processed option are those emitted for it, in emission order, and blanks |
| `ConfigRewrite.RewriteState.GetContent` | redis-7.2.10/src/config.c:1598-1614 | the lines with clusters of empty ones made one |
| `ConfigRewrite.SqueezeKeeps` | redis-7.2.10/src/config.c:1598-1614 | all lines that are not empty are kept in order, and no two empty lines stay together |
| `ConfigRewrite.SqueezeExactly` | redis-7.2.10/src/config.c:1598-1614 | of a cluster of empty lines exactly the first stays, and every other line |
| `ConfigRewrite.SplitJoin` | redis-7.2.10/src/config.c:1598-1614 | the content, split at the ends of lines, has the lines it was joined from |

## Left out

- AofSafety.CrashSafety: a rewrite begins with an empty buffer, as the forced flush leaves it when the write succeeds, and persisting the manifest is one atomic step that fails without effect; a failed fsync of the directory after the rename is not modelled. A crash is one of the server: bytes that were written stay. A command that is fed without a database does the same in each.
- The state AOF_WAIT_REWRITE with its temporary INCR file, switching the append only file on and off, and the upgrade from a single-file AOF.
- The RDB preamble: BASE files have the format of the log, whatever their name. Streams, modules and functions in a rewrite, and time stamp annotations when writing; annotations are skipped when reading.
- The text of the manifest file: its entries are values, not lines of characters.
- AofUnits.FeedsOfUnit: the commands of a unit that comes from a command which touches arbitrary keys are fed without MULTI; such a unit counts as several units of one command.
- AofLog.LoadOfPrefix: no database is claimed for commands fed with database -1; the command table is a parameter that knows all fed commands and is fed no SELECT.
- AofRebuild.RewriteLoads: the conversion of scores to text and back is a parameter that round-trips.
- AofFile.LoadSingleAppendOnlyFile: only aof-load-truncated yes is modelled, and truncating the file does not fail.
- Aborting for want of memory on an absurd length in the log is an outcome of its own, without detail.
- AdList.List: listDup, listSearchKey and the callbacks for copying, freeing and matching values.
- The fsync policies other than everysec, reclaiming page cache, signals and thread start of the workers; the other two workers are the same machine with other jobs.
- BioFsync.WorkerIsOrderly: one worker, and the main thread is the only one that submits.
- BioFsync.StoredMeansSynced: nothing is claimed once an fsync failed; a file descriptor that the main thread closes while a job for it is queued is not modelled.
- Clients blocked by modules, the lists of clients that wait for replicas or are postponed, timeouts, statistics and replies; a command that is executed again is a step of the environment that may signal keys and block its client again.
- Blocked.Server.HandleClientsBlockedOnKeys: that the loop ends is stated for the case that no command that blocks its client again signals a key; nothing is said of other cases.
- Blocked.Server.UnblockClient: the lists of clients that wait for replicas or are postponed are not modelled.
- Blocked.Server.TakeUnblocked: the commands that the client sends next are not executed by it.
- Changes of a client's database while it is blocked, and SWAPDB.
- Key and channel patterns, passwords and the other operations of ACLSetSelector and ACLSetUser; quoting of arguments when rules are split: operations have no white space and no quotes.
- AclSelector.Permissions: after an access outside of the table of first arguments, where the behaviour of the source is undefined, only that it happened is stated.
- The literal table bitsinbyte: it is the function it tabulates.
- Parsing of the arguments of the bit commands, SETBIT and GETBIT, and the conversion of integers stored as numbers to strings.
- The 16-bit functions of crcspeed.c.
- ConfigRewrite.RewriteState: option names are compared exactly; the dictionaries of the source ignore case, but the names in the old file are made lower case and those in the option table are.
- Splitting lines of the configuration file into words, aliases, Sentinel, the option table, and replacing the file on disk.
