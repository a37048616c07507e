# A verified model of the CNAssignment servers and shell

The repository holds a file server that keeps a table of open files in a file of fixed-width rows, a command
server that serves many clients from one thread, and a shell that talks to a server. This project models the
parts of them that carry state or do exact byte-level work, and proves what they keep.

| file | models |
|---|---|
| `CStrings.dfy` | C strings in a block of memory; `%d`, `atol` (held at the ends of 64 bits) and `atoi` (truncated to 32 bits) |
| `Options.dfy` | a value that may be absent |
| `Tokenizer.dfy` | the in-place tokenizer, and what the words of a string are |
| `LineReader.dfy` | the bounded line reader, and newline framing |
| `Records.dfy` | the 99-byte rows of the descriptor table, and tables of them |
| `DescriptorTable.dfy` | the table as a file of bytes: append, scan, delete by copying |
| `FileServer.dfy` | the file server serving one request after another, refining a map from names to descriptors |
| `Conversations.dfy` | what each request is answered, and what that amounts to over a whole conversation |
| `Protocol.dfy` | its client threads as a state machine, with any number of overlapping deletions, and what every run keeps |
| `Descriptors.dfy` | when descriptors are open and belong to one row or thread only, over whole runs |
| `Naming.dfy` | when names are unique, over whole runs |
| `Histories.dfy` | what clients can rely on over whole runs of the threads |
| `Schedules.dfy` | which orders of the steps are good ones |
| `Interleavings.dfy` | concrete runs that break the promises |
| `Requests.dfy` | one FOPEN or FCLOSE of a thread that is not disturbed, which is the serial server's |
| `SocketTable.dfy` | the parallel socket arrays of the command server, refining a sequence of clients |
| `ShellCommands.dfy` | how the shell prepares and sends a typed command |
| `ShellConfig.dfy`, `ConfigReload.dfy` | how the shell loads its configuration, once and again |
| `ConfigSettings.dfy` | which lines of it set a size, and to what |
| `Pager.dfy` | the pager of the shell |

Code that changes buffers, files or arrays in place is modelled by methods and classes that do the same; each
is tied by its contract to a function, and the lemmas are about that function. Pointers are offsets. What the
operating system returns (descriptors, connections, memory blocks, answers of the user) is a parameter, so
every result holds for whatever it returns, within the limits named below.

## Findings

Where the code does not keep a property in general, the project has a concrete counterexample and the exact
condition under which the property holds.

- **Deletions race with each other.** FCLOSE takes no lock, and replaces the table by a copy of the file it opened.
  What follows is exact for all runs in which each deletion has a cache file of its own (`Protocol.Private`); in
  `Interleavings.SharedCacheDuplicates` two deletions copy into one file, and a row is there twice.
  - Descriptors are open and in one place only, throughout, exactly if whatever a deletion has read is still open
    and with no thread when it removes the table (`Descriptors.SafeIffSound`). In `Interleavings.ClosedRowReturns`
    a deletion brings back the row of a closed descriptor.
  - Each close belongs to an issue exactly if no thread closes a descriptor that is not open
    (`Histories.MatchedIffOwn`, for any run). In `Interleavings.ClosedTwice` two clients close one descriptor, and
    it is closed twice although it was issued once.
  - Names are unique exactly if no row is appended to a file that has its name (`Naming.UniqueIffFresh`), and
    check_descriptor can be relied on exactly if no deletion brings back a name that a thread has found absent
    (`Naming.NamedIffNotReinstated`). In `Interleavings.TwoRowsOneName` one does.
  - The OK replies of FOPEN are durable exactly if no step drops the row of one (`Histories.DurableIffDropless`).
  - Two OK replies for a name have a deletion in between exactly if no row is appended for a name whose OK is still
    good (`Histories.SeparatedIffNeverReopens`, for any run); the other conditions together ensure that
    (`Histories.OpensAreSeparated`). In `Interleavings.OpenedTwice` a name is answered OK again although its
    descriptor was not deleted.

  If, in addition, no deletion removes a table that it did not copy (`Protocol.Orderly`), all of this holds
  (`Histories.RunIsSafe`, `Histories.SoundIsMatched`), except that rows can still be lost:
- **Deletion races with FOPEN.** Even if deletions come one after another, a row that is appended after the copy
  loop has met the end of the file, or to a table file that has been replaced since it was opened, is lost,
  although FOPEN answers OK. `Histories.DurableIffLossless` says that the OK replies of a run without collisions
  are durable exactly if no step is of one of these two kinds; `Interleavings.LosingRun` is a run with one deletion
  in which one name is opened and answered OK twice with nothing closed in between.
- These conditions on collisions and losses depend on the order of the steps alone (`Schedules.PrivateIffNotBusy`,
  `Schedules.OrderlyIffDisjoint`, `Schedules.LosslessIffTimely`, `Schedules.ScheduleDecides`), and it would be
  enough to make deletions and appends atomic (`Schedules.AtomicIsEnough`).
- **Descriptor 0.** `check_descriptor` returns 0 for "absent". `FileServer.OpenKeepsUnique` says exactly when
  an FOPEN keeps names unique, and `FileServer.ZeroDescriptorDuplicates` shows the duplicate row.
- **A stale `file_table_cache`** is not truncated when it is opened, so its rows beyond the survivors come back
  (`DescriptorTable.DeletionIsExact`). One stays behind when remove and rename fail;
  `DescriptorTable.DeleteAgain` has the exact condition for the next deletion, and
  `DescriptorTable.StaleCacheDuplicates` a successful deletion that leaves two rows for one name.
- **Writing back defaults is not idempotent** if the file ends in an unterminated line:
  `ConfigReload.ReloadIsIdempotent` has the exact condition, `ConfigReload.ReloadOfOpenLine` a file of one byte.
- **A failed accept leaks two memory blocks**, because the cleanup call is guarded off
  (`SocketTable.HeapOverRun`, and `SocketTable.FailedAcceptLeaks` for one turn).
- **The reply to "quit" goes to the next client**, because it is sent to the slot after the shift, or to nobody if
  there is none: `SocketTable.QuitIsAnsweredToTheNext` says that a reply reaches its client exactly if the request
  was not "quit".
- The comment on `do_client` in `ciserv.cc` says that an empty request ends the connection; the code does not
  do that (`SocketTable.WhatLeaves`). The message of FCLOSE documents one argument; the code requires two.

## Model

| member | source | states |
|---|---|---|
| `Tokenizer.StrTokenize` | file_server/tokenize.cc:8-29 | leaves the string with the first blank of each run, and nothing else, replaced by NUL, stores exactly the pointers to the start and to the word starts, and touches no other memory; needs room for those pointers only |
| `Tokenizer.TokenizerIsCorrect` | file_server/tokenize.cc:8-29 | the C strings found at the stored pointers in the overwritten string are the maximal blank-free words of the original in order, after one empty token if it was empty or began with a blank |
| `Tokenizer.TokensInBlock` | file_server/tokenize.cc:8-29 | the same when the string sits in a longer block of memory |
| `Tokenizer.MarkedRun` | file_server/tokenize.cc:13-26 | of a run of blanks behind a word the first becomes NUL and the others stay, and the word is left as it is |
| `Tokenizer.MarkedStart` | file_server/tokenize.cc:13-26 | the same for a run at the start of the string |
| `Tokenizer.FirstToken` | file_server/tokenize.cc:9-12 | the start of the string is a token, an empty one if the string is empty or starts with a blank |
| `Tokenizer.StartsAreIncreasing` | file_server/tokenize.cc:13-26 | the stored pointers are strictly increasing and are exactly the word starts |
| `Tokenizer.TokenBound` | file_server/tokenize.cc:9-28 | a string of length n has at most n / 2 + 1 tokens |
| `Tokenizer.TokenBoundIsTight` | file_server/tokenize.cc:9-28 | for every n a string of length n attains the bound |
| `LineReader.Readline` | file_server/tcp-utils.cc:130-152 | the exact result, every byte of the buffer and the remaining input after one call, for a line that ends, a line that is too long, the end of the data and a read error |
| `LineReader.TextIsLine` | file_server/tcp-utils.cc:130-152 | a text is the data up to a newline, which is consumed, or up to the end of the data if it can be read, or max bytes without a newline |
| `LineReader.FailureIsEarly` | file_server/tcp-utils.cc:133-141 | a call fails exactly if reading fails before a newline and before max bytes; it reports no data exactly if there is none and reading does not fail |
| `LineReader.ReadlineConserves` | file_server/tcp-utils.cc:130-152 | repeated calls return every byte of the stream once and in order, except the newlines, which are consumed; no call returns more than max bytes |
| `LineReader.TerminatedLineCalls` | file_server/tcp-utils.cc:130-152 | a terminated line of length L takes floor(L / max) + 1 calls whatever follows it |
| `LineReader.OpenLineCalls` | file_server/tcp-utils.cc:130-152 | an unterminated last line of length L takes ceil(L / max) calls |
| `LineReader.ReadAllConcat` | file_server/tcp-utils.cc:130-152 | text appended to whole lines is read as if it stood alone |
| `LineReader.FramingRoundTrip` | rsshell.cc:410-415 | commands sent as lines come back one by one exactly if all of them are shorter than the reader's bound |
| `Records.RowTokens` | file_server/descriptor.cc:61-64 | a stored row has exactly three tokens, also when the format fills all 99 bytes |
| `Records.RowRoundTrip` | file_server/descriptor.cc:104-109 | every pid, name and fd that fits, negative numbers included, is read back from its row |
| `Records.TableRoundTrip` | file_server/descriptor.cc:43-74 | the bytes of a table decode to the records that were written |
| `Records.AlwaysFits` | file_server/descriptor.cc:61-63 | a pid below 10^7, a name of at most 79 bytes and any non-negative int fit |
| `Records.FullWidthRow` | file_server/descriptor.cc:61-63 | with a 7-digit pid, a 79-byte name and the largest int the format fills the row without padding |
| `CStrings.AtoiOfDecimal` | file_server/descriptor.cc:62-62 | atoi reads back every int that %d printed |
| `CStrings.AtolOfDecimal` | rsshell.cc:85-92 | atol reads back every long, and is held at the ends of the range beyond |
| `CStrings.AtoiInText` | file_server/descriptor.cc:136-136 | atoi finds an int behind white space and stops at the first byte that is no digit |
| `CStrings.AtoiWraps` | file_server/descriptor.cc:136-136 | of a long that is not an int the lower 32 bits count |
| `CStrings.AtoiOfPlus` | file_server/descriptor.cc:136-136 | a plus sign is allowed |
| `CStrings.AtoiOfOther` | file_server/fserv.cc:228-228 | a string that starts with neither a digit, a sign nor white space is 0 |
| `DescriptorTable.AddTrailingSpaces` | file_server/descriptor.cc:16-27 | pads the string in the buffer by the number asked for, or up to size - 1 characters |
| `DescriptorTable.FormatRow` | file_server/descriptor.cc:61-64 | exactly the 99 bytes of the row are written |
| `DescriptorTable.RowFields` | file_server/descriptor.cc:104-106 | tokenizing a row in the 99-byte buffer yields its pid, name and fd |
| `DescriptorTable.FindName` | file_server/descriptor.cc:94-117 | scanning the bytes of the file finds the fd of the first row with the name, 0 if there is none |
| `DescriptorTable.CopySurvivors` | file_server/descriptor.cc:131-146 | the copy loop writes the rows with another fd, in order, over what the cache file held, or nothing if that could not be opened, and reports whether any row matched |
| `DescriptorTable.DescriptorFile.WriteDescriptor` | file_server/descriptor.cc:43-74 | the table grows by exactly one row; -1 and no change if it cannot be opened |
| `DescriptorTable.DescriptorFile.CheckDescriptor` | file_server/descriptor.cc:94-117 | the fd recorded for a name, 0 if there is no row |
| `DescriptorTable.DescriptorFile.DeleteDescriptor` | file_server/descriptor.cc:119-176 | 0 exactly if a row matched and remove and rename succeeded; the whole resulting state for each outcome of the open of the cache file, remove and rename, with a stale cache file or without |
| `DescriptorTable.DescriptorFile.ClearDescriptor` | file_server/descriptor.cc:178-190 | the table is gone; -1 if there was none |
| `DescriptorTable.DescriptorFile.InitiateDescriptor` | file_server/descriptor.cc:29-41 | an empty table, or the rows of an existing one; -1 and no change if it cannot be opened |
| `DescriptorTable.DeletionKeepsBytes` | file_server/descriptor.cc:131-146 | the survivors are byte for byte the rows of the original file whose decoded fd differs |
| `DescriptorTable.DeletionIsExact` | file_server/descriptor.cc:123-123 | only the survivors remain exactly if the stale cache file had no more rows than there are survivors |
| `DescriptorTable.DeleteAgain` | file_server/descriptor.cc:119-176 | after a deletion that could neither remove nor rename, the next one leaves exactly the survivors exactly if it has no more rows to delete than the failed one had |
| `DescriptorTable.StaleCacheDuplicates` | file_server/descriptor.cc:119-176 | a concrete successful deletion after a failed one that leaves the same row twice |
| `Records.RemoveMiss` | file_server/descriptor.cc:136-144 | deleting a descriptor that no row has leaves the table as it was |
| `Records.LookupIsFirst` | file_server/descriptor.cc:99-113 | of several rows with a name the first one counts |
| `FileServer.Server.Open` | file_server/fserv.cc:103-147 | FOPEN under the mutex: refused if it is taken, otherwise check, then a row even if open failed, and the reply; the mutex is released on every path |
| `FileServer.Server.Close` | file_server/fserv.cc:217-242 | FCLOSE removes the rows of the descriptor and replies OK exactly if there was one |
| `FileServer.Server.Request` | file_server/fserv.cc:89-250 | one request line, tokenized in place, has the effect and reply of the request on rows |
| `FileServer.Server.DoClient` | file_server/fserv.cc:67-258 | over any input a client's conversation gives the replies and the final map of the abstract server, and the bytes of the file decode to that map |
| `FileServer.Tokenize` | file_server/fserv.cc:77-92 | a request of at most 255 bytes has at most 128 tokens, so the array of 129 suffices |
| `FileServer.RowsRefineNames` | file_server/fserv.cc:103-242 | one request on a consistent table is one request on the map from names to descriptors, with the same reply, and the table stays consistent |
| `FileServer.OpenKeepsUnique` | file_server/descriptor.cc:106-116 | an FOPEN that adds its row keeps names unique exactly if no row has its name with fd 0 |
| `FileServer.ZeroDescriptorDuplicates` | file_server/descriptor.cc:116-116 | if open returned 0, a second FOPEN would add a second row |
| `FileServer.BoundUntilClosed` | file_server/fserv.cc:113-137 | a recorded name keeps its descriptor through any requests until an FCLOSE of that descriptor |
| `FileServer.FoundUntilClosed` | file_server/descriptor.cc:94-117 | so check_descriptor finds on the rows of the table after the conversation what it found before it |
| `FileServer.OpenNamesAreNames` | file_server/fserv.cc:92-120 | a name that FOPEN records is never empty and has no blank and no NUL, for any request line |
| `Conversations.OpenIsAnswered` | file_server/fserv.cc:113-137 | FOPEN of a bound name is refused with its descriptor; else the name is bound exactly if the row is recorded, even to -1, and the reply is OK exactly if the file was also created |
| `Conversations.CloseIsAnswered` | file_server/fserv.cc:217-240 | FCLOSE unbinds exactly the names of the descriptor and is answered OK exactly if there was one |
| `Conversations.OthersAreAnswered` | file_server/fserv.cc:92-101 | all other requests leave the names alone; which of them fail, and what an unknown one echoes |
| `Conversations.EachIsAnswered` | file_server/fserv.cc:74-258 | a conversation has one reply to each request up to the first "quit", each on what is bound by then |
| `Conversations.OpenUntilClosed` | file_server/fserv.cc:103-240 | in any conversation, after an OK to FOPEN every FOPEN of the name is refused with the descriptor of the reply until the first FCLOSE of that, which is answered OK |
| `Conversations.OpensAgain` | file_server/fserv.cc:103-240 | and the first FOPEN of the name after that creates the file again |
| `Conversations.OpenCloseOpen` | file_server/fserv.cc:67-258 | the bytes of an FOPEN, an FCLOSE of the descriptor of its reply and the FOPEN again get the first descriptor, OK and the second descriptor |
| `Requests.OpenIsSerial` | file_server/fserv.cc:103-147 | an FOPEN that no other thread disturbs goes through all its steps and ends with the rows of the serial server: one more row exactly if the name had none and the table could be opened, also if open failed; OK exactly if both succeeded |
| `Requests.OpenWhileLocked` | file_server/fserv.cc:114-145 | while the mutex is taken FOPEN changes nothing |
| `Requests.CloseIsSerial` | file_server/fserv.cc:217-240 | an FCLOSE that no other thread disturbs goes through all its steps and ends with the rows of the serial server, and closes the descriptor exactly if that replies OK |
| `Protocol.WhoCloses` | file_server/descriptor.cc:151-172 | whatever other deletions do, a thread goes on to close exactly if it found a row and remove and rename succeed |
| `Protocol.RunKeepsBasic` | file_server/fserv.cc:103-242 | in every run of any number of threads: at most one thread in the critical section, every file that a thread has open exists and is not the cache file it would be replaced by, and no row has fd 0 |
| `Protocol.RunKeepsCopies` | file_server/descriptor.cc:122-163 | if each deletion has a cache file of its own: the copy is always the survivors of a prefix of its source, by one thread at a time |
| `Protocol.UnlinkedRows` | file_server/descriptor.cc:148-163 | what takes the place of the table is the survivors of what the deletion has read, and the descriptor is found exactly if it was read |
| `Descriptors.ExclusiveMeans` | file_server/fserv.cc:119-231 | no descriptor is recorded or held more often than it is open, exactly if rows have distinct open descriptors, and what a thread holds is open, in no row and with no other thread |
| `Descriptors.SafeIffSound` | file_server/fserv.cc:103-242 | in any run with separate cache files descriptors are safe throughout exactly if, whenever a deletion removes the table, every descriptor it has read is still open and with no thread |
| `Descriptors.AccountsStep` | file_server/fserv.cc:119-231 | a step that does not collide keeps every open descriptor in one row or with one thread, except those it loses: when write_descriptor fails or appends to a replaced table, and those of rows appended behind a finished copy loop |
| `Descriptors.OrderlyIsSound` | file_server/descriptor.cc:122-163 | if deletions do not collide, what a deletion has read is always still open and with no thread |
| `Descriptors.NothingLeaks` | file_server/fserv.cc:119-231 | if deletions do not collide, then when no thread holds a descriptor the open files are exactly the recorded ones exactly if no step lost one |
| `Naming.UniqueIffFresh` | file_server/fserv.cc:113-120 | in any run with separate cache files no file of rows ever has a name twice exactly if no row is appended to a file that has its name |
| `Naming.NamedIffNotReinstated` | file_server/fserv.cc:113-120 | in any such run a name that check_descriptor did not find stays absent until it is recorded exactly if no deletion brings back a name that a thread has found absent |
| `Naming.NameUnlink` | file_server/descriptor.cc:148-163 | the same for one removal of the table |
| `Naming.OrderlyIsNamed` | file_server/fserv.cc:113-120 | it stays absent if deletions do not collide |
| `Histories.MatchedIffOwn` | file_server/fserv.cc:228-231 | in any run each close belongs to one issue of its descriptor exactly if no thread closes a descriptor that is not open |
| `Histories.ClosedOnce` | file_server/fserv.cc:228-231 | then two closes of a descriptor by any threads have an issue of it by the operating system in between |
| `Histories.SoundIsMatched` | file_server/fserv.cc:228-231 | so it is as long as descriptors are safe |
| `Histories.DurableIffDropless` | file_server/descriptor.cc:131-163 | in any run with separate cache files the OK replies keep their rows until a deletion of their descriptor exactly if no step drops the row of an OK that is still good |
| `Histories.SeparatedIffNeverReopens` | file_server/fserv.cc:113-124 | in any run two OK replies for a name have a deletion of the first descriptor between them exactly if no row is appended for a name whose last OK is still good |
| `Histories.OpensAreSeparated` | file_server/fserv.cc:113-124 | so it is in a run that keeps descriptors, names and OK replies |
| `Histories.RunIsSafe` | file_server/fserv.cc:103-242 | if deletions do not collide, in every reachable state names are unique and descriptors are safe |
| `Histories.UnlinkIsDeletion` | file_server/descriptor.cc:148-163 | without a collision replacing the table by the copy amounts to deleting from the present table exactly if all that was appended behind the copy loop is of the deleted descriptor |
| `Histories.DurableIffLossless` | file_server/descriptor.cc:131-163 | if deletions do not collide, the OK replies are durable exactly if no row is appended to a replaced table or behind a finished copy loop |
| `Histories.LosslessIsSeparated` | file_server/fserv.cc:116-124 | and then two OK replies for a name are separated |
| `Schedules.PrivateIffNotBusy` | file_server/descriptor.cc:123-123 | each deletion has a cache file of its own exactly if none opens it between another's open and rename |
| `Schedules.OrderlyIffDisjoint` | file_server/descriptor.cc:122-163 | deletions collide exactly if one opens the cache file while one is in use, or removes the table although it was replaced since it opened it |
| `Schedules.LosslessIffTimely` | file_server/descriptor.cc:131-163 | if deletions do not collide, no row is lost exactly if the table is not removed between its open and the append of a descriptor, and no such append comes between the end of a copy loop and the removal |
| `Schedules.ScheduleDecides` | file_server/fserv.cc:103-242 | so the order of the steps decides whether OK replies are durable, and then they are separated |
| `Schedules.AtomicIsEnough` | file_server/fserv.cc:103-242 | if deletions come one after another, remove follows the end of the copy at once and an opened table is appended to at once, all states are safe, all OK replies durable, those for one name separated, and each close belongs to one issue |
| `Interleavings.LosingRun` | file_server/fserv.cc:217-240 | a concrete run with a single deletion that loses a row and answers OK twice for a name with nothing closed |
| `Interleavings.ClosedTwice` | file_server/fserv.cc:228-231 | a concrete run of two overlapping FCLOSE that closes a descriptor twice after one issue, the second time after the operating system has given it to something else |
| `Interleavings.ClosedRowReturns` | file_server/descriptor.cc:122-163 | a concrete run in which a deletion brings back the row of a closed descriptor and loses a row that was answered OK |
| `Interleavings.OpenedTwice` | file_server/fserv.cc:113-124 | its continuation, in which the name is answered OK twice without a deletion of the first descriptor, although no row was appended too late |
| `Interleavings.TwoRowsOneName` | file_server/fserv.cc:113-120 | a concrete run in which a deletion brings a name back between the check and the append, and the table has it twice |
| `Interleavings.SharedCacheDuplicates` | file_server/descriptor.cc:123-146 | a concrete run of two deletions that copy the present table into one cache file and leave a row twice |
| `SocketTable.Sockets.DeleteSocket` | ciserv.cc:64-81 | closes, frees and removes a live client; does nothing for a slot past the end |
| `SocketTable.Sockets.AcceptNew` | ciserv.cc:87-109 | a new last client; no change to the clients if there is no room or accept fails |
| `SocketTable.Sockets.DoClient` | ciserv.cc:117-149 | the client leaves exactly at end of file or "quit", and the first token of the request goes back to whoever is in its slot then |
| `SocketTable.Sockets.MainTurn` | ciserv.cc:223-244 | one turn of the main loop on the arrays is one turn on the sequence of clients, with the same reply |
| `SocketTable.RunsKeepGood` | ciserv.cc:64-109 | after any number of turns clients are in strictly increasing order of arrival, have distinct descriptors, own pairwise distinct unfreed blocks, and number less than 100 |
| `SocketTable.SlotOwnsItsBlocks` | ciserv.cc:64-81 | the blocks that are freed for a client are allocated, distinct, and owned by no other slot |
| `SocketTable.ServesLongestConnected` | ciserv.cc:231-243 | the client served has been connected longest of all that are ready, and a connection is accepted only if none is |
| `SocketTable.TurnAccepts` | ciserv.cc:87-109 | if only the master socket is ready, a connection becomes the last client with two new blocks; with 99 clients nothing happens, and a failed accept leaks the blocks |
| `SocketTable.TurnServes` | ciserv.cc:233-239 | if a client is ready, the first one is served, and leaves with its blocks exactly at its end of file or "quit" |
| `SocketTable.QuietTurn` | ciserv.cc:233-243 | if nobody is ready, nothing happens |
| `SocketTable.FirstNinetyNineGetIn` | ciserv.cc:87-109 | of any number of connections in a row the first 99 become clients, in their order |
| `SocketTable.FirstWordComesBack` | ciserv.cc:124-142 | the reply carries the first word of the request, or as much of it as fits into 255 bytes |
| `SocketTable.HeapOverRun` | ciserv.cc:87-105 | over any run the allocated blocks are two for each client and two for each failed accept |
| `SocketTable.FailedAcceptLeaks` | ciserv.cc:91-104 | a concrete turn whose accept fails and which leaves two blocks that nobody owns |
| `SocketTable.QuitIsAnsweredToTheNext` | ciserv.cc:124-143 | a reply reaches the client that sent the request exactly if that was not "quit"; else it goes to the next client, or, as its descriptor is closed, to nobody |
| `SocketTable.WhatLeaves` | ciserv.cc:111-127 | the bytes that end the connection are none at all, or "quit" followed by nothing, a newline or a NUL; so an empty request does not, against the comment |
| `ShellCommands.PrepareCommand` | rsshell.cc:140-167 | the command sent is the typed line without its newline and without a leading "& " |
| `ShellCommands.CommandIs` | rsshell.cc:145-167 | exactly a newline at the end and "& " at the start are dropped |
| `ShellCommands.SendData` | rsshell.cc:410-415 | one more frame on the connection, whose content is the C string in the buffer |
| `ShellCommands.CommandsArrive` | rsshell.cc:135-167 | whatever is typed, a reader with a bound of at least 128 gets the commands one by one, empty ones included |
| `ShellConfig.ReadSettings` | rsshell.cc:69-103 | the last valid setting of each size wins, over the whole file |
| `ShellConfig.LoadConfig` | rsshell.cc:69-123 | the sizes found, or 75 and 40, and the file with a default line appended for each size it does not set |
| `ConfigSettings.SizesAreRead` | rsshell.cc:84-92 | behind whole lines a line "HSIZE n" or "VSIZE n" sets its size to n for every positive long, leaves the other size, and does nothing if n is not positive |
| `ConfigSettings.OtherLinesAreIgnored` | rsshell.cc:84-103 | a line with another first word changes neither size |
| `ConfigSettings.EmptyFile` | rsshell.cc:107-123 | without any setting the sizes are 75 and 40, and both defaults are appended |
| `ConfigReload.ReloadIsIdempotent` | rsshell.cc:69-123 | a second load gives the same sizes and appends nothing exactly if the first appended nothing or the open last line is a multiple of 128 bytes long, as it is when the file is empty or ends in a newline |
| `ConfigReload.ReloadOfOpenLine` | rsshell.cc:105-123 | a file of one byte whose second load appends a default again |
| `Pager.DoMore` | rsshell.cc:547-598 | the exact sequence of lines and prompts, for any file and any answers, also when the answers end |
| `Pager.PatientUserSeesAll` | rsshell.cc:566-596 | a user who always answers with a blank sees every chunk once and in order, of each the first hsize bytes of its C string, with floor(N / vsize) prompts |
| `Pager.StoppingShowsWholePages` | rsshell.cc:586-595 | a user who answers n prompts with a blank and the next one not sees exactly the first (n + 1) * vsize chunks, cut in the same way |
| `Pager.EndedInputGoesOn` | rsshell.cc:586-595 | when the user's input has ended the session goes on exactly if the line printed last starts with a blank |
| `Pager.PromptsEndPages` | rsshell.cc:568-588 | whatever the answers are, there is a prompt behind each vsize lines and nowhere else |

## Left out

- FileServer.Server.DoClient: serves one client at a time, requires that the rows it adds fit in 99 bytes and that open does not return 0 (`AllStorable`), and assumes that reads, remove, rename and the opens of the table by check_descriptor and delete_descriptor succeed; a longer name overruns the buffer in the source, and a read error makes the source loop on a stale request.
- FileServer.Server.Open: requires that the row fits in 99 bytes.
- FileServer.Server.Close: the close of the descriptor itself is not part of the serial model, where remove and rename succeed; `Protocol` has the close as a step after the deletion, and `DeleteDescriptor` every outcome of remove and rename.
- FileServer.Server.Request: FSEEK, FREAD and FWRITE are only recognised; their effect is the operating system's.
- Protocol.RunKeepsBasic: assumes that check_descriptor and the append are each one step from the open or write they hinge on, that remove and rename fail only if the name is not there, that open never returns 0 or an open descriptor, and that no cache file is left from an earlier run of the server; steps whose read loop would not end because file_table is not there are not enabled.
- Descriptors.SafeIffSound: for runs with separate cache files only, like the other exact conditions; `Interleavings.SharedCacheDuplicates` shows that they do not suffice otherwise.
- Histories.RunIsSafe: sufficient only; the exact conditions are `Descriptors.SafeIffSound` and `Naming.UniqueIffFresh`.
- Histories.OpensAreSeparated: sufficient only; the exact condition is `Histories.SeparatedIffNeverReopens`.
- DescriptorTable.FormatRow: needs a row that fits in 99 bytes; `Encode` cuts a longer one only to be defined on all records.
- DescriptorTable.CopySurvivors: assumes that file_table can be opened and read, and that file_table_cache is not opened as descriptor 0, which the source would take for the table itself.
- DescriptorTable.DescriptorFile.CheckDescriptor: assumes that file_table can be opened and read; the source loops otherwise.
- DescriptorTable.DescriptorFile.DeleteDescriptor: assumes that file_table can be opened and read; the source loops otherwise.
- DescriptorTable.RowFields: the length of the 99-byte buffer, which has no terminator, is taken as 99; what follows it in memory is not modelled.
- ShellConfig.ReadSettings: requires a value on every line that starts with a key, where the source reads a stale pointer otherwise, and reads that succeed; RHOST is accepted and ignored, as in the source.
- ShellConfig.LoadConfig: requires the same of the file, and that it can be opened.
- Pager.DoMore: the file opens and reads succeed, and vsize is at least 1, which the configuration ensures.
- SocketTable.Sockets.DoClient: reads succeed, and the command that do_client runs is not modelled; the three sends of the reply are one.
- SocketTable.Sockets.MainTurn: assumes that poll succeeds.
- create_file is the result of open only; the path it builds in uninitialised memory is not modelled.
- Socket setup, `recv_nonblock`, host lookup, thread creation, process launching, signals and logging.
- The shell's dispatch of local, background, keepalive and close commands.
- `shell/`, `shell_server/`, `file_server/trials/` and the duplicate copies of the tokenizer and line reader.
