# Verified models of the distributed systems programs

Dafny models of the programs in this repository, with proofs of what they promise.

## What is modelled

**Shared memory server** (`tp8-memoria-compartida-distribuida`). `PageModel` is the server as a
step system with one step for each critical section of a page mutex: accept, first request, one
look at the queue by a waiting thread, the message of a granted client, close. Its trace records
what was queued, granted and stored. `PageServer.Server` is the same server with its page table,
linked queues and flat buffer; each of its methods is proved to be one step of `PageModel`.
`PageSteps` says exactly what each step changes and when, `PageInvariant` what every step keeps,
`PageOrder` the results about content and order, `PageProgress` exactly which pages can still be written
while no identifier is reused, `PageReuse` a run in which an identifier reused too early loses an update,
`PageRevival` and `PageDeadlock` exactly which pages can still be written when identifiers are reused,
`Messages` the text protocol, `PageClient` the waiting client.

Five findings. A page of a segment that already existed is granted only if its C string is at most
509 bytes long; otherwise the reply is refused as too long and the page can never be written again
(`PageProgress.OldMemoryExactly`).

A client that was granted a page and leaves without a valid write blocks the page at least until its
identifier is given to somebody new (`PageProgress.QuitterBlocks`): while no identifier still queued
is reused the exact guard is `PageProgress.WritableExactly`. Since the server closes the socket of
such a client and leaves its node in the queue, the next connection may get that identifier, and if it
asks for the same page it takes over and the page comes back to life (`PageRevival.AliveExactly`).

If the new owner asks for another page instead, its thread waits there while its identifier heads the
first page, so clients can come to wait for each other for ever. Two quitters and two newcomers are
enough (`PageDeadlock.ReuseDeadlocks`). Such a deadlock and a C string too long for its reply at
start-up are the only things that stop a page, after any run whatever
(`PageDeadlock.ReachableWritableExactly`).

Once such a new owner is granted its other page, it may write the page whose queue its identifier still
heads, although it was never shown it. `PageOrder.ChainExactly` proves that such a stray write
is the only way to lose an update, so clients that write the page they were granted, as `client.c`
does, never lose one (`PageOrder.GrantedWritesAreSafe`).

The server refuses a page number that does not exist with a text that is no number and a space; the
client reads it as command 0, shows the text as the content of the page and asks for new content
(`PageClient.RefusalShownAsPage`).

**Lamport clocks** (`tp5-algoritmo-de-lamport`). `LamportClocks` has the process with its three
events and runs of any number of processes in which messages may be delayed or lost. The program
with a manual clock follows the same rules with no automatic ticks, so its runs are among these.

**Distributed file systems** (`tp7-sistema-archivos-distribuidos`, `sistema-archivos-distribuidos`).
`NameTable` is the name table as a value, `FileDns` and `ElementTable` the two name servers that keep
it in an array, `FileSharing`, `FileWriters` and `FileSessions` the whole first system with clients that
lock, fetch, edit and put back, `FileLines` its way of sending a file line by line, `ServerTables` the
name server with two tables under two mutexes, `FolderTransfer` the folder stream and its receiver.

A file whose content holds a NUL byte is cut line by line when it is sent (`FileLines.SentExactly`).
The two-table name server attributes a file to the first available server with the sender's IP,
whatever its port (`ServerTables.AttributionExactly`).

**Clock synchronisation** (`tp6-algoritmo-de-berkeley`, `tp-cristian`). `WallClock` is a clock read
and set in whole seconds, `BerkeleyRound` the daemon and its round, `BerkeleyConvergence` how close
the clocks are afterwards, `CristianSync` the client's round and its error bound.

## Assumptions

- Each message that is sent arrives as one `recv`; only the contents of a folder transfer may be cut
  into pieces of any size.
- Memory allocation succeeds, and so do opening and writing files.
- Where a result says so, a connection identifier is not given again while a node of an older
  connection is still queued (`PageModel.Legal`). The program does not enforce this, and the first such
  reuse ends the queue invariants of `PageInvariant.Inv` (`PageReuse.AcceptExact`). The results about
  arrival order, page size, lost updates (`PageOrder.ChainExactly`) and deadlock, and
  `PageRevival.AliveExactly`, hold in every state the server can reach.
- Clocks do not drift during a round.
- Clients of the first file system follow `request_file`; the name server itself lets anybody unlock.
- A file server finishes a registration before it serves clients, as its `main` does.
- C integers are unbounded, except that page numbers are below 2^31 where a message is built.

## Where code and documentation differ

The code is followed.

- `sistema-archivos-distribuidos/README_nuevo.md` says addresses are configured; the name server
  registers every element at 127.0.0.1 (`ElementTable.Elements.HandleRegister`).
- The same file says locks are released after writing; a folder asked for with ESCRIBIR stays locked.
- `tp8-memoria-compartida-distribuida/comandos.txt` says a waiting client is released by a 2; the
  server sends 0 and the content.
- `tp8-memoria-compartida-distribuida/communication.h` allows commands 0 to 9; `send_command` refuses
  those above 2.

## Model

| member | source | states |
|---|---|---|
| Text.DecimalExactly | tp5-algoritmo-de-lamport/proceso.c:163 | numbers are printed in decimal, digit by digit, with a sign in front of negative ones |
| Text.ScanExactly | tp8-memoria-compartida-distribuida/newServer.c:252 | `%d` reads white space, an optional sign and all digits that follow, as their decimal value |
| Text.NoNumberExactly | tp8-memoria-compartida-distribuida/newServer.c:266-267 | where no digit follows the white space and the sign there is no number, and `atoi` gives zero |
| Text.DecimalRoundTrip | tp5-algoritmo-de-lamport/proceso.c:127 | a number printed with `%d` is read back by `%d`, which stops right after it |
| Messages.SendCommand | tp8-memoria-compartida-distribuida/communication.c:8-37 | commands outside 0 to 2, absent content and messages of 512 bytes or more are refused; otherwise the buffer holds exactly the message sent, terminated |
| Messages.RecvCommandPageNumContent | tp8-memoria-compartida-distribuida/newServer.c:215-293 | the parser that writes NULs over the spaces of its own buffer reads the request the received bytes hold, or none |
| Messages.EncodeExactly | tp8-memoria-compartida-distribuida/communication.c:8-37 | what travels is the command digit, a space and the content up to its first NUL, at most 511 bytes in all; everything else is refused |
| Messages.ParseExactly | tp8-memoria-compartida-distribuida/newServer.c:222-281 | every received text up to its first NUL: no space is no request, one space two numbers or no request, more spaces command, page and everything after the second |
| Messages.ReplyExactly | tp8-memoria-compartida-distribuida/client.c:81-107 | every reply up to its first NUL: the number it starts with, zero where there is none, and what follows the first space |
| Messages.WriteRoundTrip | tp8-memoria-compartida-distribuida/newServer.c:262-281 | a write request gives the server the page and the typed text up to its first NUL, spaces included, whenever it fits one message |
| Messages.WriteRoundTripExact | tp8-memoria-compartida-distribuida/client.c:204-211 | what is typed arrives unchanged exactly when it holds no NUL |
| Messages.ReadRoundTrip | tp8-memoria-compartida-distribuida/client.c:115-118 | a read or blocking read request is parsed to its command and page with no content |
| Messages.ReplyRoundTrip | tp8-memoria-compartida-distribuida/client.c:81-107 | the client recovers command and content of a server reply, empty content as absent |
| Messages.WriteContentFits | tp8-memoria-compartida-distribuida/newServer.c:222-281 | content accepted in a write request is NUL-free and at most 508 bytes long |
| PageSteps.FirstMessageExactly | tp8-memoria-compartida-distribuida/newServer.c:184-206 | a first message touches a page only if it is a blocking read of it that is delivered its reply: it then queues at the tail, waiting for a locked page or granted a free one of at most 509 bytes; no other page or thread changes |
| PageSteps.OtherRequestsAreQuiet | tp8-memoria-compartida-distribuida/newServer.c:197-202 | a plain read, and a write that comes first, change no page, queue, lock or event |
| PageSteps.PollExactly | tp8-memoria-compartida-distribuida/newServer.c:363-401 | a look at the queue grants the page to the head alone; a head without its reply gives up and everybody else goes on waiting |
| PageSteps.SecondMessageExactly | tp8-memoria-compartida-distribuida/newServer.c:403-539 | the message after a grant changes a page exactly when it is a write with content to a page its sender heads: each byte, the queue, the lock and the event |
| PageSteps.OverwriteExactly | tp8-memoria-compartida-distribuida/newServer.c:502-508 | after a write each byte of the page is the content's, or NUL where the content has ended |
| PageMemory.PageIsolation | tp8-memoria-compartida-distribuida/newServer.c:502-508 | for all page sizes and counts, replacing one slot of the buffer leaves the bytes of every other page |
| PageMemory.OverwriteSlot | tp8-memoria-compartida-distribuida/newServer.c:502-508 | the slot holds the content cut to the page size and then zeros; nothing outside it changes |
| PageMemory.PageEntry.AddToQueue | tp8-memoria-compartida-distribuida/newServer.c:570-593 | the walk ends and the socket is appended to the list |
| PageMemory.PageEntry.RemoveFromQueue | tp8-memoria-compartida-distribuida/newServer.c:595-607 | the first socket is returned and dropped; -1 and no change when the list is empty |
| PageServer.Server.constructor | tp8-memoria-compartida-distribuida/newServer.c:77-97 | start-up gives free pages, page p holding the p-th slot of the attached segment |
| PageServer.Server.Enqueue | tp8-memoria-compartida-distribuida/newServer.c:448 | one queue grows at its tail, every other page keeps its list, lock and bytes |
| PageServer.Server.Release | tp8-memoria-compartida-distribuida/newServer.c:519-538 | the head leaves the queue and the page is unlocked when nobody is left |
| PageServer.Server.ReadLockPage | tp8-memoria-compartida-distribuida/newServer.c:320-454 | a blocking read is the request step of the model; the reply is the refusal of a bad page number, the wait of a locked page or the content of a free one |
| PageServer.Server.PollQueue | tp8-memoria-compartida-distribuida/newServer.c:363-401 | one round of the waiting loop is the poll step of the model; the head alone is sent the page, and a grant is recorded exactly when that reply is delivered |
| PageServer.Server.StoreContent | tp8-memoria-compartida-distribuida/newServer.c:502-508 | in the flat buffer exactly one page changes |
| PageServer.Server.WriteContent | tp8-memoria-compartida-distribuida/newServer.c:469-539 | a write is the write step of the model: refused, with the text that says why, unless page, content and head are right, and confirmed exactly when it was made |
| PageServer.Server.HandleFirstMessage | tp8-memoria-compartida-distribuida/newServer.c:184-202 | parsing and serving the first message is the first-message step of the model, and the reply is the refusal, the wait or the page as it was, and none for other requests |
| PageServer.Server.HandleSecondMessage | tp8-memoria-compartida-distribuida/newServer.c:403-413 | parsing and serving the message after a grant is the second-message step of the model, and the reply is a confirmation exactly when the write was made, otherwise the refusal that says why, or none |
| PageInvariant.RunKeeps | tp8-memoria-compartida-distribuida/newServer.c:320-539 | while no identifier still queued is reused, after every run a page is locked exactly when its queue is non-empty, no connection is queued twice or on two pages, a granted connection is at the head and was told the page's present content, and arrivals are writers followed by waiters |
| PageInvariant.RunKeepsHeads | tp8-memoria-compartida-distribuida/newServer.c:320-539 | identifier reuse included, after every run a page is locked exactly when its queue is non-empty, and a granted connection is at the head and was told the page's present content |
| PageOrder.ChainExactly | tp8-memoria-compartida-distribuida/newServer.c:339-539 | over any run from start-up, identifier reuse included, a page holds what its last write stored, and each write was made by a connection that had been sent exactly what the page held before it, exactly when no granted connection wrote this page while granted another |
| PageOrder.GrantedWritesAreSafe | tp8-memoria-compartida-distribuida/client.c:204-211 | clients that write the page they were granted never lose an update, even where identifiers are reused too early |
| PageOrder.NoLostUpdates | tp8-memoria-compartida-distribuida/newServer.c:488-498 | while no identifier still queued is reused, no update is lost whatever the clients send |
| PageOrder.OtherPageRefused | tp8-memoria-compartida-distribuida/newServer.c:488-498 | a write aimed at a page other than the granted one changes no page, lock or queue |
| PageOrder.TypedReachesNextClient | tp8-memoria-compartida-distribuida/client.c:196-211 | over every run that follows, whoever is granted the page before it is written again was sent what the holder typed, cut to the page size, and its reply reads as that text |
| PageOrder.NoOvertaking | tp8-memoria-compartida-distribuida/newServer.c:341-401 | over any run the writers followed by the remaining queue are the old queue followed by the newcomers |
| PageOrder.ExactWait | tp8-memoria-compartida-distribuida/newServer.c:363-401 | in every state the server can reach, identifier reuse included, and over every run from it, the first node of a waiter with k nodes ahead stands k minus the writes since until it writes, and heads the queue exactly after k writes |
| PageProgress.RunKeepsFit | tp8-memoria-compartida-distribuida/newServer.c:371-384 | a page whose grant reply fits a message keeps fitting, whatever is written |
| PageProgress.ZeroedPagesAlwaysFit | tp8-memoria-compartida-distribuida/newServer.c:434-444 | from zeroed pages the message-too-long path never blocks a grant in any run |
| PageProgress.FrozenForever | tp8-memoria-compartida-distribuida/newServer.c:403-417 | a page that is free but does not fit its reply, or whose head has left or waits for a grant that does not fit, keeps content, head and writers in every possible run that does not give somebody new the identifier of its head |
| PageProgress.QuitterBlocks | tp8-memoria-compartida-distribuida/newServer.c:403-417 | in every state the server can reach, a client that was granted a page and sends anything but a write to it leaves the page as it is in every possible run, until somebody new gets its identifier |
| PageProgress.RunKeepsUnfitFree | tp8-memoria-compartida-distribuida/newServer.c:371-384 | over any run a page that fits its grant reply keeps fitting, and one that does not stays free and does not fit |
| PageProgress.EveryWaiterIsReached | tp8-memoria-compartida-distribuida/newServer.c:363-401 | if the clients ahead are all still there, their turns, one write each in queue order, bring a waiter its grant |
| PageProgress.WritableExactly | tp8-memoria-compartida-distribuida/newServer.c:341-417 | while no identifier still queued is reused, a page can be written in some future exactly when it is free and fits, or its head is granted, or its head waits and it fits |
| PageProgress.OldMemoryExactly | tp8-memoria-compartida-distribuida/newServer.c:65-74 | over an existing segment a page can ever be written exactly when its C string is at most 509 bytes long; a longer one stays as it is in every possible run |
| PageReuse.ReuseBreaksTheChain | tp8-memoria-compartida-distribuida/newServer.c:205-206 | with an identifier reused too early a write lands on a page its author was never shown |
| PageRevival.HeadIsServed | tp8-memoria-compartida-distribuida/newServer.c:363-401 | if the head of a page that is granted or fits its reply does not wait for another page, some run lets its identifier write the page and moves the others up by one |
| PageRevival.AliveExactly | tp8-memoria-compartida-distribuida/newServer.c:137-206 | in every state the server can reach, identifier reuse included, a page whose head does not wait for another page can be written in some future by somebody who was granted it exactly when it fits its grant reply |
| PageDeadlock.DeadlockedIsForever | tp8-memoria-compartida-distribuida/newServer.c:363-401 | a page whose head is one of a set of identifiers that each wait for a page where another of the set stands ahead keeps bytes, head and writers in every possible run |
| PageDeadlock.CycleIsDeadlock | tp8-memoria-compartida-distribuida/newServer.c:363-401 | pages each of whose heads waits for a different one of them are deadlocked, whatever their number |
| PageDeadlock.FreshNeverDeadlocks | tp8-memoria-compartida-distribuida/newServer.c:320-454 | while no queued identifier was reused no page is deadlocked |
| PageDeadlock.ReuseDeadlocks | tp8-memoria-compartida-distribuida/newServer.c:205-206 | wherever two pages are free and fit, two clients that quit and the reuse of their identifiers lead from start-up to a page that fits and can never be written again |
| PageDeadlock.WritableUnlessDeadlocked | tp8-memoria-compartida-distribuida/newServer.c:320-539 | under invariants of every reachable state a page can be written in some future, and by somebody who was granted it, exactly when it fits its grant reply and is not deadlocked |
| PageDeadlock.ReachableWritableExactly | tp8-memoria-compartida-distribuida/newServer.c:320-539 | from start-up over any memory, after any run, identifier reuse included, a page can still be written, and by somebody who was granted it, exactly when it fitted its grant reply at the start and is not deadlocked |
| PageClient.AwaitGrant | tp8-memoria-compartida-distribuida/client.c:123-189 | for every list of replies content is shown exactly when one is the first reply with command 0, either the first of all or after a first reply that says to wait; it is the content of that one |
| PageClient.ClientShowsGrant | tp8-memoria-compartida-distribuida/client.c:139-189 | whether it waited or not, the client shows exactly the text of the granted page |
| PageClient.RefusalShownAsPage | tp8-memoria-compartida-distribuida/newServer.c:328-333 | the refusal of a page number is shown as the content of the page |
| LamportClocks.Process.Tick | tp5-algoritmo-de-lamport/proceso.c:98-108 | a tick adds one |
| LamportClocks.Process.PrepareMessage | tp5-algoritmo-de-lamport/proceso.c:160-164 | a send adds one and its message reads as the new clock |
| LamportClocks.Process.Deliver | tp5-algoritmo-de-lamport/proceso.c:126-132 | a receive gives one more than the larger of its own and the received clock; whatever the message holds, the clock grows |
| LamportClocks.PrintedArrives | tp5-algoritmo-de-lamport/proceso.c:126-164 | the clock a process prints into its message is the clock its receiver reads |
| LamportClocks.StampRule | tp5-algoritmo-de-lamport/proceso.c:102-165 | the clock of an event follows from its process before it and, for a receive, from the clock of the send |
| LamportClocks.ClockCondition | tp5-algoritmo-de-lamport/proceso.c:94-165 | an event that happens before another, through any mix of process order and messages, has the smaller clock |
| LamportClocks.ExactStamp | tp5-algoritmo-de-lamport/proceso.c:94-165 | an event's clock is the maximum, over causal chains ending at it, of the initial clock of the chain's first process plus its length |
| LamportClocks.ClocksAreBounded | tp5-algoritmo-de-lamport/proceso.c:27 | no clock exceeds the largest initial clock plus the number of events so far |
| NameTable.FindIsLookup | sistema-archivos-distribuidos/servidor_dns_nuevo.c:101-102 | first-match search is lookup in the map of names |
| NameTable.RegisterOnMap | sistema-archivos-distribuidos/servidor_dns_nuevo.c:97-134 | registering accepts a new name while a row is free, or a known unlocked name from its own address, and never changes a known entry |
| NameTable.AskOnMap | sistema-archivos-distribuidos/servidor_dns_nuevo.c:191-218 | a write request is granted exactly when the name is known and unlocked, and then locks it; a read changes nothing |
| NameTable.UnlockOnMap | sistema-archivos-distribuidos/servidor_dns_nuevo.c:137-149 | an unlock clears the lock of that name and nothing else |
| ElementTable.RegisterExactly | sistema-archivos-distribuidos/servidor_dns_nuevo.c:97-134 | a new name is stored unlocked while there are fewer than 100, a known one is accepted from its own address while unlocked, and nothing else changes |
| ElementTable.Elements.RegisterElement | sistema-archivos-distribuidos/servidor_dns_nuevo.c:97-134 | the bounded array follows the table's registration |
| ElementTable.Elements.HandleRegister | sistema-archivos-distribuidos/servidor_dns_nuevo.c:167-183 | whatever address is sent, the element is registered at 127.0.0.1 |
| ElementTable.Elements.HandleRequest | sistema-archivos-distribuidos/servidor_dns_nuevo.c:185-219 | the bounded array follows the table's requests |
| ElementTable.Elements.UnlockElement | sistema-archivos-distribuidos/servidor_dns_nuevo.c:137-149 | the bounded array follows the table's unlock and reports whether the name was found |
| ElementTable.RunKeepsTable | sistema-archivos-distribuidos/servidor_dns_nuevo.c:97-149 | over every run names stay unique and within the capacity of 100 |
| ElementTable.GrantsAndUnlocksAlternate | sistema-archivos-distribuidos/servidor_dns_nuevo.c:136-218 | on each name write grants and effective unlocks alternate, and the name is locked exactly when the last was a grant |
| ElementTable.EntriesAreStable | sistema-archivos-distribuidos/servidor_dns_nuevo.c:97-149 | a registered name keeps its address, port and kind in every later run |
| ElementTable.RegisterKeepsLocks | sistema-archivos-distribuidos/servidor_dns_nuevo.c:100-116 | registering a name changes no lock |
| FileDns.Dns.RegisterFile | tp7-sistema-archivos-distribuidos/dns_server.c:31-66 | the array follows the table's registration, given a free row for a new name |
| FileDns.Dns.RequestFile | tp7-sistema-archivos-distribuidos/dns_server.c:67-90 | the array follows the table's requests |
| FileDns.Dns.UnlockFile | tp7-sistema-archivos-distribuidos/dns_server.c:91-105 | the array follows the table's unlock |
| FileLines.SendByLines | tp7-sistema-archivos-distribuidos/file_server.c:89-91 | the line loop sends the lines of a file, each cut at its first NUL |
| FileLines.SentChunk | tp7-sistema-archivos-distribuidos/file_server.c:89-91 | chunk by chunk of at most 1023 bytes a file loses exactly what follows a NUL in the same chunk |
| FileLines.SentExactly | tp7-sistema-archivos-distribuidos/client.c:62-65 | a file arrives unchanged exactly when it holds no NUL |
| FileSessions.RequestExactly | tp7-sistema-archivos-distribuidos/dns_server.c:67-90 | a write request is granted and locks exactly when the name is known and unlocked; otherwise nothing changes |
| FileSessions.RegisterExactly | tp7-sistema-archivos-distribuidos/dns_server.c:31-66 | what a registration does to the names, and that the server serves the file exactly when accepted |
| FileSessions.SessionReplacesTheFile | tp7-sistema-archivos-distribuidos/client.c:45-68 | whenever a known name is unlocked and its server free, an idle client can lock, fetch, edit and put it back; then the file is what it made of it, the lock is free and nothing else differs |
| FileWriters.RunKeeps | tp7-sistema-archivos-distribuidos/dns_server.c:31-105 | names are served where the table says, locks are exactly the writers at work, fetched copies are current, busy servers confirm exactly one update |
| FileWriters.WritersAreSerialised | tp7-sistema-archivos-distribuidos/dns_server.c:72-103 | at every moment at most one client per file is between its granted write and the matching unlock, and the file is locked exactly then |
| FileWriters.OnlyTheUnlockReleases | tp7-sistema-archivos-distribuidos/file_server.c:107-114 | in each step a writer keeps its file exactly when the step is not the unlock its own update causes |
| FileWriters.LockedUntilUnlock | tp7-sistema-archivos-distribuidos/dns_server.c:72-103 | in every run without that unlock the writer keeps its file and the name server keeps it locked |
| FileWriters.UpdatesFormAChain | tp7-sistema-archivos-distribuidos/client.c:45-68 | in every run each update replaces exactly the version its sender had fetched, and the file is what the last update left |
| FileWriters.WriterSeesTheFile | tp7-sistema-archivos-distribuidos/file_server.c:85-92 | what a writer edits is the file as it stands, byte for byte exactly when it holds no NUL |
| ServerTables.Tables.RegisterServer | sistema-archivos-distribuidos/dns.c:156-187 | a known address is marked available, a new one is appended while a row is free, and the index returned is the row of that address or -1 |
| ServerTables.AddServerExactly | sistema-archivos-distribuidos/dns.c:156-187 | a known address becomes available in its first row, a new one gets its own row while one is free, no other row differs |
| ServerTables.Tables.FindSender | sistema-archivos-distribuidos/dns.c:289-298 | the first available row with the sender's IP, or -1 |
| ServerTables.Tables.RegisterFile | sistema-archivos-distribuidos/dns.c:190-226 | a file is appended, unlocked, with its name, kind and server index, exactly when its server is usable, its name new and a row free |
| ServerTables.StartThenPublish | sistema-archivos-distribuidos/dns.c:171-177 | writing a row and then counting it is one registration |
| ServerTables.TablesStaySound | sistema-archivos-distribuidos/dns.c:156-226 | in every interleaving row i has index i, addresses and names are unique, and every file points to an existing available server |
| ServerTables.FoundIndexStaysGood | sistema-archivos-distribuidos/dns.c:289-307 | an index found under one mutex is still usable under the other, so a file is refused only for a taken name or a full table |
| ServerTables.RecordExactly | sistema-archivos-distribuidos/dns.c:284-307 | in every interleaving the row a thread records points to the first server with the IP it looked for, unless the name is taken or the table full |
| ServerTables.AttributionExactly | sistema-archivos-distribuidos/dns.c:289-297 | a file is attributed to the server that registers it exactly when no earlier row has its IP |
| FolderTransfer.SendFolder | sistema-archivos-distribuidos/servidor_archivos_nuevo.c:116-163 | the sending loops produce the stream of headers, contents and end mark |
| FolderTransfer.ReceiveBody | sistema-archivos-distribuidos/cliente_nuevo.c:83-91 | however the contents are cut, exactly the announced bytes are taken, or all there are |
| FolderTransfer.ReceiveFolder | sistema-archivos-distribuidos/cliente_nuevo.c:50-108 | the receiving loop rebuilds what the stream holds, independently of how contents are cut |
| FolderTransfer.FileNameExactly | sistema-archivos-distribuidos/cliente_nuevo.c:70-75 | a file name and size survive their header exactly when the name is non-empty and holds no colon, newline or NUL |
| FolderTransfer.FolderNameExactly | sistema-archivos-distribuidos/cliente_nuevo.c:95-98 | a subfolder name survives its header exactly when it is one word without a NUL |
| FolderTransfer.FolderRoundTrip | sistema-archivos-distribuidos/servidor_archivos_nuevo.c:128-160 | receiving what was sent adds every entry to any folder, for any list of entries with plain names |
| FolderTransfer.OnlyPlainNamesBuilt | sistema-archivos-distribuidos/cliente_nuevo.c:63-105 | whatever stream arrives, every file name built is free of colons and newlines and every subfolder name is one word |
| FolderTransfer.TransferExactly | sistema-archivos-distribuidos/cliente_nuevo.c:63-105 | for every list of entries, receiving what was sent rebuilds all of them exactly when all names are plain |
| FolderTransfer.TransferFolder | sistema-archivos-distribuidos/cliente_nuevo.c:63-105 | the sending and receiving loops together rebuild the folder exactly when all names are plain |
| FolderTransfer.StreamExactly | sistema-archivos-distribuidos/servidor_archivos_nuevo.c:128-160 | the bytes that travel for a file, a subfolder and the end |
| FolderTransfer.EndStopsAnywhere | sistema-archivos-distribuidos/cliente_nuevo.c:66-68 | nothing after the end mark is read, and a stream that just ends is accepted |
| FolderTransfer.OtherLinesAreSkipped | sistema-archivos-distribuidos/cliente_nuevo.c:70-104 | a line that is no header is skipped |
| FolderTransfer.CutFileIsKept | sistema-archivos-distribuidos/cliente_nuevo.c:83-91 | if the stream ends inside a file, what arrived of it is kept |
| FolderTransfer.NothingIsAdded | sistema-archivos-distribuidos/cliente_nuevo.c:63-105 | the names built are those of the entries and no others |
| FolderTransfer.NothingIsLost | sistema-archivos-distribuidos/servidor_archivos_nuevo.c:128-157 | with the different names of a directory each file arrives with its own bytes and each subfolder by name |
| WallClock.Clock.SetSeconds | tp6-algoritmo-de-berkeley/daemon.c:202-216 | setting a clock gives it the new seconds and keeps its microseconds |
| CristianSync.Synchronize | tp-cristian/client.c:184-237 | one round leaves the client's clock within the error bound of the daemon's |
| CristianSync.ErrorBound | tp-cristian/client.c:216-227 | for every non-negative RTT and every moment of the answer the error lies strictly between -(RTT/2 + 2 s) and RTT/2 + 1 s, less the delay of the correction |
| CristianSync.LowerBoundIsTight | tp-cristian/client.c:216-237 | the lower bound is met to within 1.5 microseconds |
| CristianSync.UpperBoundIsTight | tp-cristian/client.c:216-237 | the upper bound is met to within a microsecond |
| BerkeleyRound.AverageBetween | tp6-algoritmo-de-berkeley/daemon.c:335-339 | the integer average lies between the smallest and the largest time |
| BerkeleyRound.AverageExactly | tp6-algoritmo-de-berkeley/daemon.c:335-339 | the average is the quotient of the sum by the number of times, rounded towards zero |
| BerkeleyRound.SumExactly | tp6-algoritmo-de-berkeley/daemon.c:335-338 | every time counts once in the sum |
| BerkeleyRound.CollectedExactly | tp6-algoritmo-de-berkeley/daemon.c:311-327 | every active slot that answered is collected once, in slot order, and no other |
| BerkeleyRound.Daemon.AcceptClient | tp6-algoritmo-de-berkeley/daemon.c:143-172 | the first free slot is taken, and every active slot stays below the client count |
| BerkeleyRound.Daemon.CollectTimes | tp6-algoritmo-de-berkeley/daemon.c:311-332 | the times are the local one and the answers of active clients, within the array; valid times are the active clients left plus one |
| BerkeleyRound.Daemon.SendCorrections | tp6-algoritmo-de-berkeley/daemon.c:347-357 | every active client is corrected: the guard on valid times never skips one |
| BerkeleyRound.Daemon.SynchronizeTime | tp6-algoritmo-de-berkeley/daemon.c:289-365 | a round sends the average of the participants, the quotient of their sum by their number, to exactly those that answered and sets the daemon's own clock to it, keeping its microseconds; without clients it does nothing |
| BerkeleyConvergence.RoundConverges | tp6-algoritmo-de-berkeley/daemon.c:304-359 | after a round of D microseconds any two corrected clocks differ by less than D + 1 s, and each is within D + 1 s of the interval of the old offsets |
| BerkeleyConvergence.AgreementIsTight | tp6-algoritmo-de-berkeley/daemon.c:202-216 | the bound on agreement is met to within a microsecond for every D |

## Left out

- Socket set-up, signals, `fork`, shared memory calls, local time formatting and all printing: no logic of their own.
- The reply to a plain read of a page (`read_page`) and the printing of the page table: they take no mutex and change nothing.
- Overflow of C integers in `atoi`, page offsets and logical clocks.
- PageModel.Next: an interrupted `recv` or a client that disconnects is a message that does not parse, and a failed `send` is a step with `delivered` false; timing and the pause of the waiting loop are not modelled.
- Fairness of thread scheduling: PageProgress.EveryWaiterIsReached gives the run that serves a waiter; that the operating system eventually schedules it is not claimed.
- FileDns.Dns.RegisterFile: an eleventh name is written past the end of the source's table; the model asks for a free row instead.
- FolderTransfer.ReceiveFolder: each header is taken to arrive whole and alone, and a file that cannot be created is not modelled.
- A folder asked for with ESCRIBIR: no release is claimed, since the client never sends an update for it.
- File servers that stop or restart while a file is locked.
- The list of registered elements kept by `servidor_archivos_nuevo.c` and the Cristian daemon's slots: an array that only grows, and the slot table of the Berkeley daemon again.
- The earlier exercises (`sockets*`, `tp1` to `tp4`): one request and one answer over a socket, or generated remote procedure stubs, with no state kept between requests.
