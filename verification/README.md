# OSConfig platform and agents: a verified model

This project models the part of OSConfig that keeps state across calls: the management platform
(registry of modules and sessions, the MPI server and its HTTP framing, the process life cycle), the
collector of command output, the PnP agent (desired twin ring, twin walk, Watcher, pacing) and the
compliance resource of the machine configuration adapter with its audit reasons.

Code that updates things in place is modelled by classes and methods with loops; each such method is
proved equal to a function on values, and the theorems are about those functions over every input
and every run. The outside world (modules, the JSON library, the network, the clock, daemons, files)
is a parameter that may answer anything, in general depending on everything that happened before, so
a theorem holds for every behaviour of it.

| file | content |
|---|---|
| `Base.dfy` | optional values, JSON documents with ordered members |
| `Registry.dfy`, `ModulesManager.dfy` | the registry as a value, and as a linked list changed in place |
| `RegistryProperties.dfy`, `BulkProperties.dfy` | stacks of sessions, conservation of handles, routing; bulk set and bulk report |
| `HttpReading.dfy`, `HttpReadingProperties.dfy`, `HttpFraming.dfy`, `HttpRequests.dfy` | the byte-at-a-time readers; the formats of responses and requests and their round trips |
| `MpiServer.dfy`, `MpiCalls.dfy` | request handling and the worker loop; what each request does, name by name |
| `Lifecycle.dfy` | main thread, worker threads and signals as a step protocol |
| `CommandOutput.dfy` | the read loop of ExecuteCommand |
| `AgentSession.dfy`, `TwinRing.dfy`, `TwinRingProperties.dfy`, `TwinWalk.dfy`, `TwinWalkProperties.dfy` | the agent's session, the ring of desired twin updates, the walk over a twin |
| `Watcher.dfy` | hash-guarded apply and save |
| `Reasons.dfy`, `Compliance.dfy`, `OsConfigResource.dfy`, `ComplianceProperties.dfy` | audit reasons; Get, Test and Set as functions and as methods; what they do to the device and say |
| `Pacing.dfy` | reporting interval and the 32-bit clock |

## What was found on the way

- Serving a connection depends on its request and the registry alone iff the request does not announce
  a length of -1 (`MpiServer.IsolatedIff`). atoi gives -1 for 4294967295 and for everything from the
  largest long on (`HttpRequests.PrintedLength`, `MpiServer.LengthOfAllOnes`). The server then
  allocates no bytes, read fails with the very -1 that was asked for, and the body is whatever the block
  holds (`src/platform/MpiServer.c:500-513`, `MpiServer.BlockDecides`).
- The size of the response buffer is an int. A response is written iff the estimate fits one
  (`HttpFraming.NeverTruncated`, `MpiServer.ClientReadsAnswer`); with status 200 that fails above
  INT_MAX - 114 (`HttpFraming.LargestNotWritten`). Acknowledgements of the agent have the same limit
  (`TwinWalkProperties.AckNeverTruncated`).
- A response whose handler reports more bytes than its buffer holds before a NUL advertises a wrong
  length; `HttpFraming.LengthIsHonestIff` says exactly when, `HttpFraming.DishonestLength` is a case.
- Get and Test always post the same MI result and verdict, but they do not always do the same to the
  device: Get sends the procedure object before it finds out that ReportedObjectName is missing, Test
  checks first (`src/adapters/mc/OsConfigResource.c:633-680`, `:1123-1197`). `ComplianceProperties.GetAndTestAgree`
  states this as an if-and-only-if, `ComplianceProperties.GetActsOnProcedure` is a case.
- With no ExpectedObjectValue the log of Get says that "PASS" is assumed, yet the code compares with
  the value kept from the last Get that had one (`src/adapters/mc/OsConfigResource.c:738-752`).
  `ComplianceProperties.ExpectedPersists` follows the code, `ComplianceProperties.MissingExpectedIsNotPass` is a history in
  which it makes a difference.
- Set posts OK whatever the device answered; a refusal is kept only as the result to report next
  (`src/adapters/mc/OsConfigResource.c:1449-1451`). `ComplianceProperties.SetSends` says what is kept,
  `ComplianceProperties.SetOkThoughRefused` is a case.
- The kind of an audit reason is told by its first four characters alone, so a failure text that
  starts with "PASS" passes an audit. `Reasons.LooksLikeSuccess` is such a text;
  `Reasons.ReasonRendersLastRun` and `Reasons.VerdictOfSeries` give the exact conditions.
- The position in the output of a command is an unsigned int. `CommandOutput.CountedIff` says exactly
  which reads are computed right, `CommandOutput.WrapsIff` which runs, and `CommandOutput.PositionWraps`
  gives a position and reads that are not.
- Rounds of the agent keep their distance even if more than 2^32 seconds pass between two visits; that
  bound is needed only for the converse, that a due round is not put off (`Pacing.WorksWhenDue`).

## Model

| member | source | states |
|---|---|---|
| `RegistryProperties.SessionsAreStacks` | src/platform/ModulesManager.c:347-481 | over every run, with colliding uuids allowed, the session list restricted to a uuid is the stack that opens under that uuid push on and closes pop from |
| `RegistryProperties.LookupIsLatestOpen` | src/platform/ModulesManager.c:422-436 | in every reachable state lookup gives the latest session opened under a uuid and not closed yet, and nothing iff there is none |
| `RegistryProperties.OpenNamesSession` | src/platform/ModulesManager.c:347-420 | in every reachable state an open is refused without effect iff it names no client or no module is loaded; otherwise it returns the generated uuid, which names the session just opened, in front of what it named before, and no other uuid is affected |
| `RegistryProperties.OpenCallsEveryModule` | src/platform/ModulesManager.c:378-395 | such an open opens each loaded module once with the client and size given, and the session keeps the handles answered, in load order |
| `RegistryProperties.CloseStacks` | src/platform/ModulesManager.c:438-481 | closing pops the stack of its own uuid, if there is one, and changes no other stack |
| `RegistryProperties.CloseTakesFirst` | src/platform/ModulesManager.c:438-481 | a close removes the first session with the uuid, leaves the order of all others, and closes its handles in order; it changes nothing without such a session |
| `RegistryProperties.CloseIsLocal` | src/platform/ModulesManager.c:438-481 | closing one uuid changes neither stack nor lookup of another |
| `RegistryProperties.HandlesConserved` | src/platform/ModulesManager.c:378-479 | over every run, handles opened = handles closed + handles live, counted per module and handle, and no close is ahead of its open |
| `RegistryProperties.NothingUnloadedYet` | src/platform/ModulesManager.c:347-841 | no operation other than teardown unloads a module |
| `RegistryProperties.TeardownClosesEverything` | src/platform/ModulesManager.c:236-299 | every run that ends in UnloadModules closes each handle as often as it was opened, through its own module, and never ahead of its open |
| `RegistryProperties.UnloadsComeLast` | src/platform/ModulesManager.c:236-299 | the unloads are the last calls of such a run, one per loaded module, so nothing is closed after an unload |
| `RegistryProperties.HandlesInLoadOrder` | src/platform/ModulesManager.c:130-135 | the two head insertions cancel: each session lists its handles in the order in which modules were loaded |
| `RegistryProperties.RoutesToEarliestLoaded` | src/platform/ModulesManager.c:483-514 | in every reachable state a component resolves to the first loaded module that declares it, and to none iff none does |
| `RegistryProperties.CallsGoToEarliestLoaded` | src/platform/ModulesManager.c:483-603 | in every reachable state the one call that MpiSet or MpiGet makes carries the caller's arguments, goes to the handle of the first loaded module that declares the component in the session opened last under the uuid, and its answer is returned; there is none, and EINVAL, iff no session is open or no module declares it |
| `RegistryProperties.CallsAreAnswered` | src/platform/ModulesManager.c:516-841 | over every run what is logged of sets and gets is what the module answered to those very arguments |
| `RegistryProperties.ReportIsConfigured` | src/platform/ModulesManager.c:165-218 | over every run the objects to report are those of the last configuration read before modules were loaded |
| `BulkProperties.SetDesiredIsManySets` | src/platform/ModulesManager.c:605-716 | for every payload MpiSetDesired leaves the state and trace that one MpiSet per (component, object) pair in document order leaves; a refused call changes nothing and returns EINVAL |
| `BulkProperties.SetDesiredStatusIsLast` | src/platform/ModulesManager.c:650-695 | its status is that of the last event of the document, a component without module counting as one EINVAL, and MPI_OK if there was none |
| `BulkProperties.ReportTrace` | src/platform/ModulesManager.c:757-825 | a report makes, for each entry with a module and in list order, one get and then one release of that payload through the same module |
| `BulkProperties.ReportIsLastAnswers` | src/platform/ModulesManager.c:757-825 | the document holds at each [component][object] the last answer in the trace that succeeded and parsed |
| `BulkProperties.GetReportedIsExact` | src/platform/ModulesManager.c:718-841 | MpiGetReported serialises exactly that document, with no other key, no duplicate key and no empty component, from what the modules answered, and frees every payload once |
| `BulkProperties.GetReportedRefused` | src/platform/ModulesManager.c:735-744 | without a handle or a session for it nothing is called and the status is EINVAL |
| `ModulesManager.Platform.constructor` | src/platform/ModulesManager.c:38-48 | a platform starts with empty lists |
| `ModulesManager.Platform.AreModulesLoadedAndLoadIfNot` | src/platform/ModulesManager.c:50-234 | loading happens only while no module is loaded and reverses the load order |
| `ModulesManager.Platform.MpiOpen` | src/platform/ModulesManager.c:347-420 | the linked list after an open is the specified list with the new session at its head |
| `ModulesManager.Platform.OpenHandles` | src/platform/ModulesManager.c:378-395 | every module is opened in list order and its handle linked at the head |
| `ModulesManager.Platform.Link` | src/platform/ModulesManager.c:370-398 | the new session is in front of the old list, which is unchanged |
| `ModulesManager.Platform.FindSession` | src/platform/ModulesManager.c:422-436 | the walk returns the node of the head-most session with the uuid, or null |
| `ModulesManager.Platform.MpiClose` | src/platform/ModulesManager.c:438-481 | closes the handles of the found session and takes exactly its node out; an unknown or NULL handle changes nothing |
| `ModulesManager.Platform.CloseHandles` | src/platform/ModulesManager.c:454-460 | closes each handle once, head first |
| `ModulesManager.Platform.Unlink` | src/platform/ModulesManager.c:462-475 | the list is well formed again and lacks exactly one node |
| `ModulesManager.Platform.FindPrevious` | src/platform/ModulesManager.c:466-472 | the walk ends at the predecessor |
| `ModulesManager.Platform.Bypass` | src/platform/ModulesManager.c:466-475 | relinking the predecessor removes one node and keeps all others in order |
| `ModulesManager.Platform.ComponentExists` | src/platform/ModulesManager.c:483-498 | tells whether a module declares a component |
| `ModulesManager.Platform.FindModuleSession` | src/platform/ModulesManager.c:500-514 | the first handle whose module declares the component |
| `ModulesManager.Platform.Resolve` | src/platform/ModulesManager.c:516-545 | session lookup, then component lookup |
| `ModulesManager.Platform.MpiSet` | src/platform/ModulesManager.c:516-556 | the new state and status are those of the specified set |
| `ModulesManager.Platform.MpiGet` | src/platform/ModulesManager.c:558-603 | the new state and reply are those of the specified get |
| `ModulesManager.Platform.MpiSetDesired` | src/platform/ModulesManager.c:605-716 | the new state and status are those of the specified bulk set, error paths included |
| `ModulesManager.Platform.SetComponents` | src/platform/ModulesManager.c:650-695 | the outer loop: trace and carried status |
| `ModulesManager.Platform.SetObjects` | src/platform/ModulesManager.c:667-693 | the inner loop: trace and carried status |
| `ModulesManager.Platform.MpiGetReported` | src/platform/ModulesManager.c:718-841 | the new state and reply are those of the specified report |
| `ModulesManager.Platform.Report` | src/platform/ModulesManager.c:757-825 | the loop over the reported list: trace and document |
| `ModulesManager.Platform.FetchOne` | src/platform/ModulesManager.c:759-820 | one entry: get, parse, free |
| `ModulesManager.Platform.UnloadModules` | src/platform/ModulesManager.c:292-299 | the calls of teardown, sessions before modules |
| `ModulesManager.Platform.FreeSessions` | src/platform/ModulesManager.c:251-277 | closes all handles of all sessions |
| `ModulesManager.Platform.FreeModules` | src/platform/ModulesManager.c:236-249 | unloads each module once |
| `HttpReading.Socket.ReadUntilStringFound` | src/common/commonutils/SocketUtils.c:8-61 | returns the shortest prefix that shows the text in front of any NUL and leaves the rest; consumes everything when it never comes |
| `HttpReading.Socket.ReadUriFromSocket` | src/common/commonutils/SocketUtils.c:63-120 | the longest run of at most 32 letters behind "POST /", and what is left unread |
| `HttpReading.Socket.ReadHttpStatusFromSocket` | src/common/commonutils/SocketUtils.c:122-156 | the three-digit status behind "HTTP/1.1 ", or 404, and what is left unread |
| `HttpReading.Socket.ReadHttpContentLengthFromSocket` | src/common/commonutils/SocketUtils.c:158-207 | the number in the first Content-Length field of the header block, or 0, and the stream left at the body |
| `HttpFraming.NeverTruncated` | src/platform/MpiServer.c:523-530 | for every three-digit status and every size an int can hold, a response is written iff the estimate fits an int, and then nothing is cut |
| `HttpFraming.LargestNotWritten` | src/platform/MpiServer.c:523-530 | with status 200 nothing is written iff the size is above INT_MAX - 114 |
| `HttpReadingProperties.NeverRead` | src/common/commonutils/SocketUtils.c:31-58 | a text that never comes is looked for until the end of the stream |
| `HttpReadingProperties.UriRead` | src/common/commonutils/SocketUtils.c:89-104 | the name is read up to the first byte that is no letter, which is consumed |
| `HttpReadingProperties.UriCut` | src/common/commonutils/SocketUtils.c:68-104 | of a longer name 32 letters are read |
| `HttpReadingProperties.UriMissing` | src/common/commonutils/SocketUtils.c:79-85 | without "POST /" there is no name |
| `HttpReadingProperties.StatusTable` | src/common/commonutils/SocketUtils.c:122-156 | a digit from 1 to 5 and two digits are that status, any other three bytes 404 |
| `HttpReadingProperties.StatusWithoutSpace` | src/common/commonutils/SocketUtils.c:122-156 | without the space the status is 404 and one byte is consumed |
| `HttpReadingProperties.LengthOfDigits` | src/common/commonutils/SocketUtils.c:179-200 | the length is the number of the digits right behind the label, 0 without a digit |
| `HttpReadingProperties.LengthMissing` | src/common/commonutils/SocketUtils.c:163-180 | without the label the length is 0 |
| `HttpFraming.ResponseText` | src/platform/MpiServer.c:457-530 | a written response is status line, three header lines, an empty line and the body up to its size or a NUL |
| `HttpFraming.ReasonTexts` | src/platform/MpiServer.c:427-453 | the reason phrase of each status |
| `HttpFraming.DecimalValue` | src/platform/MpiServer.c:529 | reading the digits that were printed gives the number back |
| `HttpFraming.DoubleEndOnlyAtEnd` | src/platform/MpiServer.c:457 | an empty line occurs in the header block only at its end |
| `HttpFraming.ReadsWholeBlock` | src/common/commonutils/SocketUtils.c:176-177 | a reader stops exactly behind the header block, whatever the body contains |
| `HttpFraming.LabelFoundFirst` | src/common/commonutils/SocketUtils.c:179-183 | the first Content-Length label a reader finds is the real one |
| `HttpFraming.LengthParsed` | src/common/commonutils/SocketUtils.c:179-200 | the length read from a header is the size printed into it |
| `HttpFraming.StatusRead` | src/common/commonutils/SocketUtils.c:122-156 | the status read is the status printed, and nothing behind it is consumed |
| `HttpFraming.ResponseReadBack` | src/platform/MpiServer.c:523-530 | reading status, then length, from a response whose estimate fits an int gives both back and leaves the stream at the body bytes |
| `HttpFraming.RoundTrip` | src/platform/MpiServer.c:457-530 | for every NUL-free body, status, length and body come back exactly iff the estimate fits an int; otherwise nothing is written |
| `HttpFraming.LengthIsHonestIff` | src/platform/MpiServer.c:529-530 | the length a written response advertises is the number of body bytes iff the buffer holds that many before a NUL |
| `HttpFraming.DishonestLength` | src/platform/MpiServer.c:529-530 | a buffer with a NUL inside: three bytes advertised, two sent |
| `HttpRequests.RequestText` | src/common/mpiclient/MpiClient.c:28 | the header lines of a request |
| `HttpRequests.RequestReadBack` | src/common/mpiclient/MpiClient.c:28 | reading name, then length, from a client's request gives the name and what atoi makes of the printed size, and leaves the stream at the body |
| `HttpRequests.PrintedLength` | src/common/commonutils/SocketUtils.c:196-198 | a printed size is read modulo 2^32, so back iff it fits an int, and as -1 iff its low 32 bits are ones or it is at least the largest long |
| `MpiServer.SetErrorResponse` | src/platform/MpiServer.c:160-183 | a failed call answers 500 with a text, and its size, from which a client recovers that very status; a successful one leaves the response alone |
| `MpiServer.ErrorReadBack` | src/platform/MpiServer.c:160-183 | for every int the quoted status fits its buffer and is read back from it |
| `MpiServer.HandleMpiCall` | src/platform/MpiServer.c:185-425 | a missing uri or malformed request is refused without touching registry, response or size; a well-formed one runs exactly its own call and returns its answer with its size |
| `MpiServer.HandleOpen` | src/platform/MpiServer.c:237-295 | the same for MpiOpen |
| `MpiServer.HandleSession` | src/platform/MpiServer.c:302-412 | the same for the calls that name a session |
| `MpiServer.MpiServerWorker` | src/platform/MpiServer.c:455-563 | for every series of connections the loop writes to each client what serving its request calls for, at most once, runs the handlers of each request, and leaves the registry that serving them in turn leaves, although its locals live on |
| `MpiServer.ServeConnection` | src/platform/MpiServer.c:483-558 | one iteration is a function of its own connection and the registry, with no uri, body, size or status of an earlier one, and resets the locals for the next |
| `MpiServer.AnswerRequest` | src/platform/MpiServer.c:487-520 | status, body and size of the answer, starting from reset locals |
| `MpiServer.ReadRequest` | src/platform/MpiServer.c:493-514 | what is read is the request on the socket, the content of an empty block for a length of -1, or a bad request status |
| `MpiServer.ReadBody` | src/platform/MpiServer.c:500-513 | a body of positive length is taken iff it can be allocated and one read returns all of it, one of length -1 always, and any other negative length never |
| `MpiCalls.OpenRequest` | src/platform/MpiServer.c:237-276 | MpiOpen is accepted iff ClientName is a string and MaxPayloadSizeBytes a number that is no negative int, and else 400 |
| `MpiCalls.CloseRequest` | src/platform/MpiServer.c:302-321 | MpiClose is accepted iff ClientSession is a string, and else 400 |
| `MpiCalls.SetRequest` | src/platform/MpiServer.c:302-375 | MpiSet is accepted iff session, component and object are strings and the payload serialises, each in its place, and else 400 |
| `MpiCalls.GetRequest` | src/platform/MpiServer.c:302-385 | MpiGet is accepted iff session, component and object are strings, each in its place, and else 400 |
| `MpiCalls.SetDesiredRequest` | src/platform/MpiServer.c:387-404 | MpiSetDesired is accepted iff the session is a string and the payload serialises, and else 400 |
| `MpiCalls.GetReportedRequest` | src/platform/MpiServer.c:405-412 | MpiGetReported is accepted iff the session is a string, and else 400 |
| `MpiCalls.UnknownRequest` | src/platform/MpiServer.c:414-420 | an object under any other name is answered 404 |
| `MpiCalls.NoObjectRequest` | src/platform/MpiServer.c:185-234 | a request that cannot be read, or whose body is no object, is answered 400 |
| `MpiCalls.RefusedServed` | src/platform/MpiServer.c:485-520 | a refused request runs no handler and gets its status without a body |
| `MpiCalls.OpenServed` | src/platform/MpiServer.c:277-294 | an accepted open opens the session and answers its uuid in quotes, 500 without modules |
| `MpiCalls.CloseServed` | src/platform/MpiServer.c:317-321 | an accepted close closes the session and answers 200 without a body |
| `MpiCalls.SetServed` | src/platform/MpiServer.c:356-375 | an accepted set sets that object of that component to that payload and answers 200, or 500 and the status |
| `MpiCalls.GetServed` | src/platform/MpiServer.c:376-385 | an accepted get gets that object of that component and answers 200 and the module's payload, or 500 and the status |
| `MpiCalls.SetDesiredServed` | src/platform/MpiServer.c:387-404 | an accepted bulk set applies that document and answers 200, or 500 and the status |
| `MpiCalls.GetReportedServed` | src/platform/MpiServer.c:405-412 | an accepted report answers 200 and the document, or 500 and the status |
| `MpiCalls.NamesAreRead` | src/common/commonutils/SocketUtils.c:63-120 | requests with the six names arrive under them |
| `MpiCalls.RequestParsed` | src/platform/MpiServer.c:493-514 | what a request comes to by the length it announces: no body, the body, the empty block, or nothing |
| `MpiServer.CallsOf` | src/platform/MpiServer.c:516-520 | at most one handler runs per connection |
| `MpiServer.AnswerStatus` | src/platform/MpiServer.c:185-425 | every answer carries 200, 400, 404 or 500 |
| `MpiServer.ResponsesAt` | src/platform/MpiServer.c:483-558 | response i and handlers i are those of request i, given the registry that the operations of the earlier connections left |
| `MpiServer.ServerRunsRegistry` | src/platform/MpiServer.c:455-563 | whatever arrives, the server drives the registry through a run, so the theorems about runs hold of it |
| `MpiServer.ClientReadsAnswer` | src/platform/MpiServer.c:523-530 | a client gets a response iff its estimate fits an int, and reads from it status, length and, if NUL-free, body of the answer to its own request |
| `MpiServer.RequestRoundTrip` | src/common/mpiclient/MpiClient.c:62-96 | a call sent by a client arrives with its name and body |
| `MpiServer.IsolatedIff` | src/platform/MpiServer.c:483-558 | response, next registry and handlers do not depend on what memory held before iff the request does not announce a length of -1 |
| `MpiServer.BlockDecides` | src/platform/MpiServer.c:500-519 | with that length the content of the empty block decides between a bad request and another answer |
| `MpiServer.LengthOfAllOnes` | src/platform/MpiServer.c:498 | a request that prints 4294967295 announces -1 |
| `Lifecycle.Reachable` | src/platform/MpiServer.c:565-630 | in every reachable state of main thread, workers and signals, a stored error of 0 means exactly one created and unjoined worker |
| `Lifecycle.MainKeepsInvariant` | src/platform/MpiServer.c:565-630 | every step of the main thread keeps that, failing socket calls and thread creation included |
| `Lifecycle.WorkerKeepsInvariant` | src/platform/MpiServer.c:483-563 | every step of a worker keeps it |
| `Lifecycle.WorkerExclusion` | src/platform/MpiServer.c:616-630 | at most one worker is alive, and none while UnloadModules runs |
| `Lifecycle.NoRefreshLost` | src/platform/Main.c:111-131 | a refresh request at any point is followed by a Refresh that begins after it, or is still pending |
| `Lifecycle.LoopPass` | src/platform/Main.c:197-209 | a pass of the loop begins a shutdown if a stop is requested, a refresh, with the request taken out of the flag, if one is, and else comes back |
| `Lifecycle.ShutdownTests` | src/platform/MpiServer.c:616-621 | a shutdown deactivates the server and waits for a worker iff one was created |
| `Lifecycle.JoinWaits` | src/platform/MpiServer.c:621-624 | it waits until the worker has ended |
| `Lifecycle.UnloadEndsShutdown` | src/platform/MpiServer.c:626-630 | having unloaded, it goes on to initialize or to end |
| `Lifecycle.StartupPass` | src/platform/MpiServer.c:565-614 | an initialization has one new worker and an active server iff socket and thread could be created |
| `Lifecycle.WorkerTurn` | src/platform/MpiServer.c:483-487 | a worker serves while the server is active and ends once it is not |
| `CommandOutput.Collect` | src/common/commonutils/CommandUtils.c:165-289 | for every run in which no read makes the unsigned position wrap, the text is the sanitised output up to maxTextResultBytes - 1 bytes with its NUL, NULL iff nothing was read or wanted, and the status is that of the pass that ended the loop; the result tells the two kinds of run apart exactly |
| `CommandOutput.Buffer.Realloc` | src/common/commonutils/CommandUtils.c:258-267 | the new block keeps what was written |
| `CommandOutput.Buffer.Append` | src/common/commonutils/CommandUtils.c:252-284 | one chunk extends the sanitised text and all writes stay inside the block |
| `CommandOutput.Buffer.Copy` | src/common/commonutils/CommandUtils.c:269-283 | copies with replacement until chunk or space is used up |
| `CommandOutput.CountedIff` | src/common/commonutils/CommandUtils.c:252-258 | the unsigned sizes are the wanted ones iff the new position, and without a limit its terminator, can be counted |
| `CommandOutput.WrapsIff` | src/common/commonutils/CommandUtils.c:246-258 | without a limit a run wraps iff its output reaches UINT_MAX bytes; with a limit that leaves room for one more read, or no text wanted, never |
| `CommandOutput.PositionWraps` | src/common/commonutils/CommandUtils.c:252-258 | a position and two reads for which the computed sizes are wrong |
| `CommandOutput.KeptGrows` | src/common/commonutils/CommandUtils.c:246-284 | cutting after each chunk is cutting once at the end |
| `CommandOutput.ScanReadsOutput` | src/common/commonutils/CommandUtils.c:182-244 | a run to end of file with any idle polls and interruptions has read exactly the output |
| `CommandOutput.ScanStops` | src/common/commonutils/CommandUtils.c:182-244 | a run ends at its first ending pass (error, timeout, cancel, end of file), with that status and what was read before |
| `CommandOutput.ChunkingDoesNotMatter` | src/common/commonutils/CommandUtils.c:165-284 | two splits of the same output give the same status and data, and without a limit or with one that leaves room for a read both wrap or neither does |
| `CommandOutput.TextAt` | src/common/commonutils/CommandUtils.c:269-283 | what stands for each byte: which are kept under which options and which become a space, byte by byte |
| `CommandOutput.KeptIsPrefix` | src/common/commonutils/CommandUtils.c:246-258 | the output kept is its first maxTextResultBytes - 1 bytes, or all without a limit |
| `CommandOutput.PassDecides` | src/common/commonutils/CommandUtils.c:196-244 | what a pass does by clock, callback and read: timeout, cancel, end of file, error or bytes |
| `CommandOutput.PassBeforeTime` | src/common/commonutils/CommandUtils.c:182-202 | an interrupted select does not count, a failing select or clock ends the run |
| `CommandOutput.SafeForJson` | src/common/commonutils/CommandUtils.c:269-283 | with replaceEol and forJson no character needs escaping under section 7 of RFC 8259, for signed and unsigned char |
| `CommandOutput.SanitizedIsStable` | src/common/commonutils/CommandUtils.c:269-283 | the text holds no NUL and sanitising it again changes nothing |
| `TwinRing.DesiredTwinUpdates.QueueDesiredTwinUpdate` | src/adapters/pnp/PnpUtils.c:318-356 | an acceptable update overwrites the current slot and the index moves on; others change nothing |
| `TwinRing.DesiredTwinUpdates.ClearDesiredTwinUpdates` | src/adapters/pnp/PnpUtils.c:358-369 | all slots empty, index kept |
| `TwinRing.DesiredTwinUpdates.ProcessDesiredTwinUpdates` | src/adapters/pnp/PnpUtils.c:371-385 | every waiting slot is processed once, in slot order, and marked |
| `TwinRingProperties.Reachable` | src/adapters/pnp/PnpUtils.c:318-385 | the ring invariant holds after every run of queue, process and clear |
| `TwinRingProperties.PositionIsModulo` | src/adapters/pnp/PnpUtils.c:350-355 | after every run the slot of a sequence number is that number modulo 10 |
| `TwinRingProperties.SlotHoldsNewest` | src/adapters/pnp/PnpUtils.c:318-385 | a filled slot j holds the newest update whose number is j modulo 10, and no update is processed twice |
| `TwinRingProperties.EveryUpdateMeetsItsFate` | src/adapters/pnp/PnpUtils.c:318-385 | every update is waiting with its payload, processed, or lost, just as a reference that sees only later operations says |
| `TwinRingProperties.DoneIffInTime` | src/adapters/pnp/PnpUtils.c:318-385 | by that reference an update is processed iff a pass comes before ten later updates and before a clear |
| `TwinRingProperties.CallbacksProcessInOrder` | src/adapters/pnp/PnpUtils.c:387-408 | in runs of callbacks with hub management on, all updates are processed exactly once in order of arrival |
| `TwinRingProperties.DisabledCallbackQueues` | src/adapters/pnp/PnpAgent.c:251-262 | with hub management off a callback only queues |
| `AgentSession.DaemonDecides` | src/adapters/pnp/PnpAgent.c:324-363 | a session whose platform is active is kept; otherwise the daemon is started and, iff that works, a session opened |
| `AgentSession.RefreshEvents` | src/adapters/pnp/PnpAgent.c:324-363 | a refresh counts as a new session iff its events end in a successful open |
| `TwinWalk.TwinAgent.RefreshSession` | src/adapters/pnp/PnpAgent.c:324-363 | handle, result and events of a refresh |
| `TwinWalk.TwinAgent.UpdatePropertyFromIotHub` | src/adapters/pnp/PnpUtils.c:621-670 | calls and acknowledgement of one property |
| `TwinWalk.TwinAgent.AckPropertyUpdateToIotHub` | src/adapters/pnp/PnpUtils.c:678-718 | the formatted text is sent once, or nothing if its buffer cannot be had |
| `TwinWalk.TwinAgent.ProcessJsonFromTwin` | src/adapters/pnp/PnpUtils.c:174-316 | the calls of a whole payload, or an error without any |
| `TwinWalk.TwinAgent.Walk` | src/adapters/pnp/PnpUtils.c:263-301 | the loop over components, skipping the version |
| `TwinWalk.TwinAgent.WalkChild` | src/adapters/pnp/PnpUtils.c:276-300 | the loop over properties, skipping the marker |
| `TwinWalkProperties.WalkIsUpdateEach` | src/adapters/pnp/PnpUtils.c:263-301 | the nested walk is one update per component/property pair in document order without "$version" and "__t" |
| `TwinWalkProperties.RetryBlock` | src/adapters/pnp/PnpUtils.c:645-649 | one or two sets of the same text, two iff the first failed and a session was opened in between |
| `TwinWalkProperties.PropertyBlock` | src/adapters/pnp/PnpUtils.c:621-670 | a property that serialises ends in one acknowledgement, whose text is the whole template with the document version and 200 iff the last attempt succeeded |
| `TwinWalkProperties.UpdateEachBlocks` | src/adapters/pnp/PnpUtils.c:263-301 | a series of pairs makes the calls of its pairs, one block each, in order |
| `TwinWalkProperties.FullTwinIsApplied` | src/adapters/pnp/PnpUtils.c:222-301 | a full twin is applied from its "desired" object, with that object's version |
| `TwinWalkProperties.PartialTwinIsApplied` | src/adapters/pnp/PnpUtils.c:213-301 | a partial twin is applied from its root, with the root's version |
| `TwinWalkProperties.DocumentIsApplied` | src/adapters/pnp/PnpUtils.c:174-316 | for every payload: the blocks of the object that a full or partial twin is applied from, in document order, with what the outside answered; anything else is an error without a call |
| `TwinWalkProperties.AckSample` | src/adapters/pnp/PnpUtils.c:29 | one acknowledgement, character by character |
| `TwinWalkProperties.AckNeverTruncated` | src/adapters/pnp/PnpUtils.c:692-699 | for every version the text is sent iff its estimate fits an int, and then it is never cut |
| `Watcher.WatcherTask.ProcessDesiredConfigurationFromFile` | src/adapters/pnp/Watcher.c:64-99 | calls and new hash for one file |
| `Watcher.WatcherTask.SaveReportedConfigurationToFile` | src/adapters/pnp/Watcher.c:30-62 | calls, file and new hash of a save |
| `Watcher.WatcherTask.WatcherDoWork` | src/adapters/pnp/Watcher.c:268-292 | the new state of the Watcher after a tick |
| `Watcher.HashesAreFaithful` | src/adapters/pnp/Watcher.c:30-99 | over every run of ticks and any hash function, a stored desired hash is 0 or that of the last accepted payload of its source, the reported hash that of the last saved payload, and after a successful save the file holds it |
| `Watcher.SentIffNew` | src/adapters/pnp/Watcher.c:64-99 | presenting a file sends its content iff its hash is nonzero and differs from the last accepted one |
| `Watcher.TickSends` | src/adapters/pnp/Watcher.c:268-292 | what a tick sends from each source and in which order: an accepted payload is not sent again, a failing one is sent at every tick that presents it; a clone once made stays, and the report comes last |
| `Watcher.SavedIffNew` | src/adapters/pnp/Watcher.c:30-62 | a reported payload is saved iff it was obtained, is not empty and has a new nonzero hash, and what the file holds then |
| `Watcher.SetDesiredBlock` | src/adapters/pnp/Watcher.c:84-93 | applying sends that payload from that source once, and a second time exactly when that failed and a session was opened |
| `Watcher.FetchBlock` | src/adapters/pnp/Watcher.c:39-46 | the report is fetched once, and a second time exactly when that failed and a session was opened |
| `Watcher.RunContinues` | src/adapters/pnp/Watcher.c:30-99 | over every run what is logged of calls is what platform, daemon and file system answered |
| `Watcher.ReportBlock` | src/adapters/pnp/Watcher.c:30-62 | saving the report sends no desired configuration |
| `Reasons.Reason.AddReason` | src/common/logging/Reasons.h:32-41 | appends the separator and the text with a small first letter |
| `Reasons.Reason.OsConfigCaptureReason` | src/common/logging/Reasons.h:43-52 | the stored reason stays the fold of the captures, one failure longer |
| `Reasons.Reason.OsConfigCaptureSuccessReason` | src/common/logging/Reasons.h:54-66 | the stored reason stays the fold of the captures, one success longer |
| `Reasons.Reason.OsConfigIsSuccessReason` | src/common/logging/Reasons.h:68-69 | true iff nothing was captured or the series ends in successes or in failures that all look like one; without such failure texts, iff the last capture was a success |
| `Reasons.Reason.OsConfigResetReason` | src/common/logging/Reasons.h:71-75 | back to no captures |
| `Reasons.FirstLetterLowered` | src/common/logging/Reasons.h:36-38 | joining a text lowers its first letter if that is a capital, and nothing else |
| `Reasons.FirstCaptures` | src/common/logging/Reasons.h:43-66 | what a capture makes of no reason, of one of its kind and of one of the other |
| `Reasons.LastRunIsMaximal` | src/common/logging/Reasons.h:43-66 | the run kept apart by the fold is the last maximal run of captures of one kind |
| `Reasons.KindShown` | src/common/logging/Reasons.h:43-69 | a series looks passed iff it ends in successes or in failures that all start with the prefix |
| `Reasons.ReasonRendersLastRun` | src/common/logging/Reasons.h:32-66 | the reason is the rendering of the last run iff a condition on the texts of the last two runs holds |
| `Reasons.VerdictOfSeries` | src/adapters/mc/OsConfigResource.c:752 | judged against "PASS" a series complies iff its last capture is a success or its final failures all start with the prefix |
| `Reasons.PlainSeries` | src/adapters/mc/OsConfigResource.c:890-922 | if no failure text starts with the prefix: rendering, verdict and phrase are as intended |
| `Reasons.LooksLikeSuccess` | src/common/logging/Reasons.h:43-52 | a failure that passes an audit |
| `ComplianceProperties.SendMakesCalls` | src/adapters/mc/OsConfigResource.c:308-390 | a send goes to the baseline, and iff that refuses, after a refresh unless there is a session, to the platform if there is one, with the same component, object and text; the result kept is that of a failed last attempt |
| `ComplianceProperties.ReceiveMakesCalls` | src/adapters/mc/OsConfigResource.c:415-432 | a read asks in the same order for the same component and object, and takes the last reply |
| `ComplianceProperties.ReadDeviceReads` | src/adapters/mc/OsConfigResource.c:392-497 | before a read the init object is set to the desired value iff neither is "-"; the last reply gives the text, or the MI and MPI results of its refusal |
| `ComplianceProperties.GetReads` | src/adapters/mc/OsConfigResource.c:545-752 | for every input that passes validation: procedure, init object and read of the input's own reported object, in this order, and a verdict that compares the text read with the expected value |
| `ComplianceProperties.TestReads` | src/adapters/mc/OsConfigResource.c:1046-1221 | the same for Test |
| `ComplianceProperties.IncompleteIsRefused` | src/adapters/mc/OsConfigResource.c:545-752 | an input that does not pass is refused by both; Test does nothing to the device, Get at most sends the procedure |
| `ComplianceProperties.GetGivesReason` | src/adapters/mc/OsConfigResource.c:888-925 | with a verdict Get posts code and phrase for its own input's ids and the text read |
| `ComplianceProperties.CodeNamesRule` | src/adapters/mc/OsConfigResource.c:890-916 | the code of a verdict |
| `ComplianceProperties.PhraseTellsRest` | src/adapters/mc/OsConfigResource.c:890-922 | the phrase is the text without the expected one in front, or a standing text |
| `ComplianceProperties.SetSends` | src/adapters/mc/OsConfigResource.c:1259-1470 | for every input Set is OK iff it is complete and the distribution right, even if the device refused; procedure, then desired object; what is kept to report next |
| `ComplianceProperties.GetAndTestAgree` | src/adapters/mc/OsConfigResource.c:499-1257 | from every state and for every input Get and Test post the same result and verdict; they do the same to the device iff Get does not act alone |
| `ComplianceProperties.AgreeOnceRead` | src/adapters/mc/OsConfigResource.c:545-752 | on inputs that pass both validations they also leave the same session, result and trace |
| `ComplianceProperties.ExpectedPersists` | src/adapters/mc/OsConfigResource.c:738-752 | over every history the value that stands in for a missing one is that of the last Get that had one and read the device, "PASS" if none |
| `ComplianceProperties.GetKeepsExpected` | src/adapters/mc/OsConfigResource.c:738-752 | Get replaces that value iff it succeeded with an explicit one |
| `ComplianceProperties.TestKeepsExpected` | src/adapters/mc/OsConfigResource.c:1211-1221 | Test never replaces it |
| `ComplianceProperties.DesiredPersists` | src/adapters/mc/OsConfigResource.c:713-722 | over every history the desired value that stands in for a missing one is the last one stored, "FAIL" if none |
| `ComplianceProperties.GetActsOnProcedure` | src/adapters/mc/OsConfigResource.c:633-690 | an input on which Get acts on the device and Test does not |
| `ComplianceProperties.MissingExpectedIsNotPass` | src/adapters/mc/OsConfigResource.c:738-752 | a history after which a report of "FAIL" complies with an input that expects nothing |
| `ComplianceProperties.SetOkThoughRefused` | src/adapters/mc/OsConfigResource.c:1449-1451 | a Set whose both attempts fail and that is OK |
| `OsConfigResource.Resource.SetDesiredObjectValueToDevice` | src/adapters/mc/OsConfigResource.c:308-390 | session, kept result and device operations of a send |
| `OsConfigResource.Resource.GetReportedObjectValueFromDevice` | src/adapters/mc/OsConfigResource.c:392-497 | globals, result and device operations of a read, error paths included |
| `OsConfigResource.Resource.GetTargetResource` | src/adapters/mc/OsConfigResource.c:499-1013 | globals, device operations and what is posted |
| `OsConfigResource.Resource.TestTargetResource` | src/adapters/mc/OsConfigResource.c:1015-1257 | globals, device operations and what is posted |
| `OsConfigResource.Resource.SetTargetResource` | src/adapters/mc/OsConfigResource.c:1259-1470 | globals, device operations and the result |
| `Pacing.GetIntegerFromJsonConfig` | src/common/commonutils/ConfigUtils.c:70-132 | the value lies between the bounds whenever the default does |
| `Pacing.ConfiguredInteger` | src/common/commonutils/ConfigUtils.c:70-132 | the configured number clamped to the bounds; the default for 0, no number or no object |
| `Pacing.GetReportingIntervalFromJsonConfig` | src/common/commonutils/ConfigUtils.c:149-152 | the interval lies within 1 to 86400 for every configuration |
| `Pacing.ConfiguredInterval` | src/common/commonutils/ConfigUtils.c:149-152 | the interval is the configured number of seconds cut to 1 to 86400, 30 without one |
| `Pacing.Agent.AgentDoWork` | src/adapters/pnp/PnpAgent.c:434-484 | works iff the unsigned difference of 32-bit times reaches the interval, and then remembers the end of the round |
| `Pacing.RoundsAreSpaced` | src/adapters/pnp/PnpAgent.c:434-484 | for every clock that does not run backwards each round starts at least the interval after the previous one ended, across any number of wraps |
| `Pacing.WorksWhenDue` | src/adapters/pnp/PnpAgent.c:434-484 | with less than 2^32 seconds since the last round a visit works iff the interval has passed |

## Left out

- CommandOutput.Collect: stops where a read makes the unsigned position wrap, because from there on the source may write outside its block.
- CommandOutput.Buffer.Append: is called for reads that do not wrap only, which Collect tests.
- CommandOutput.Collect: starts from a NULL text result and does not cover fork, exec and the exit status of the child.
- ModulesManager.Platform.UnloadModules: is the last operation of a run, because the source leaves its list heads pointing at freed nodes.
- ModulesManager.Platform.AreModulesLoadedAndLoadIfNot: takes every "Reported" entry as well formed, because the source counts valid entries without compacting the array.
- ModulesManager.Platform.MpiOpen: the module list and the handles of a session are sequences, not linked nodes, because the source never relinks them; GenerateUuid may return any string.
- MpiServer.MpiServerWorker: sizes returned by modules are taken as payload lengths, and a payload longer than an int can count as not sent; short reads occur only in the request body.
- MpiServer.ReadBody: follows glibc and Linux where C leaves the outcome open: a block of no bytes can be had, a read of more than any address range holds fails, and the successor of the largest int is negative.
- TwinWalkProperties.AckNeverTruncated: texts of 4 GiB and more, whose length wraps to a positive int again.
- Lifecycle.Reachable: safety only; a join may wait in accept for ever.
- ComplianceProperties.SendMakesCalls: re-establishing the session of the machine configuration adapter is one step of the device.
- The JSON library: parse and serialise are abstract, and members with the same key in one object are not told apart from what the library would keep.
- Allocation failures, except those that sizes cause.
- Changes to the reported file by other programs, Git commands, file permissions, logging, telemetry, daemon control.
- IoT Hub set-up, connection callbacks and ReportPropertyToIotHub, which stores a hash before it sends.
- InitializeAgent and the agent's own refresh flag, which is cleared after the work it asks for.
- The module loader (dlopen and dlsym), the generated MI wrappers and the AIS client.
- The other configuration getters and DaemonUtils.c, which would only add easy members.
