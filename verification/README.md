# wperfk: a verified model

wperfk is a load generator for HTTP. This project models its hardest parts in Dafny and proves what they are
meant to guarantee. `dafny verify dfyconfig.toml` checks all of it.

**The epoll emulation for Windows (wepoll).** `TreeShapes` and `RedBlackTree` are the intrusive red-black tree
with parent pointers, changed in place; `Queues` the circular doubly linked queue; `PollGroups` the allocator of
poll groups. `PortModel` says what one locked operation does to the sockets of a port, `PortRuns` what any
interleaving of threads and of the kernel does, `PortReports` and `PortDelivery` what epoll_wait reports in it:
only what was asked for, and all of it. The class in `Ports` carries these steps out on mutable objects. The
kernel is free: it accepts or refuses every poll, and completes outstanding polls in any order, to any waiting
thread. `Reflocks` is the reference-counted lock that protects a port against being destroyed while it is used,
first as an object and then as a state machine in which any number of threads take single atomic steps;
`PortClosing` puts ports and locks together.

**The response parser (llhttp).** `FramingRules` decides how long a body is. `ResponseStates` says what the
parser does when it looks at one byte; `ResponseFold` folds this over a byte string and is the specification.
`ResponseEngine` is the engine as it is written: it runs to the end of the buffer, skips bodies in bulk, matches
fixed sequences in a loop, and hands out spans in fragments. It is proved to do what the fold does, which makes
the result independent of how the stream is cut into buffers; `ResponseLoss` specifies what an error makes it
lose, the only thing that does depend on it. `ResponseMessages` proves that the parser undoes the printing of
whole responses, from its initial state and for any number of them on a connection; the parts are in
`ResponseLines` (status lines), `ResponseNames`, `ResponseValues`, `ResponseLists` and `ResponseHeads` (header
fields), `ResponseBodies`, `ResponseChunks` and `ResponseExtensions` (bodies). `ResponseEof` is about the end of
the stream, and `ResponseTexts` reads two texts byte for byte. The parser has
`LENIENT_OPTIONAL_CR_BEFORE_LF` set, as wperfk sets it.

**The latency histogram (HdrHistogram).** `HdrLayout` is the arithmetic of slots, `HdrCounts` relates counts to
the sorted recorded values, `HdrHistogram` and `HdrIterators` are the mutable histogram and its iterators. A
ghost field holds the recorded values; every operation is described by what it does to them.

**The load engine.** `Pacing` is the constant-rate scheduler of a connection with its catch-up mode and the
corrected latencies; `StopCounter` the counter that ends a run after exactly N responses.

**Histogram files.** `HistFiles` prints and reads the counts of a histogram; `HistMerge` whole files and the
merge of many.

**The URL parser.** `UrlParser` and `UrlFields`.

`Basics` holds what several of them share.

Some statements that one would expect of the code do not hold of it. For each there is an input or a run that
shows it, and the exact condition under which the statement does hold:

- The end of the stream completes a response exactly in the read-until-close body only if the status is not 1xx:
  `ResponseTexts.EofDisagreement` and `ResponseEof.EofRule`.
- How a stream is cut into buffers does not matter for the state of the parser, but it does for what is shown
  when an error cuts off a span: `ResponseTexts.CutInTwo` and `ResponseEngine.ExecuteBoth`.
- Reaching N responses stops a run of `-n N` only if the N-th comes before the deadline, because the source
  leaves the callback there before it sets `stop`: `StopCounter.LateLast` and `StopCounter.QuietMeansDone`.
- More than N responses may be reported when a thread leaves before its warm-up ends, because its count is not
  reset then: `StopCounter.StillWarmIsReported` and `StopCounter.ExactCount`.
- The option to leave out the CR before an LF does not cover the end of a chunk size: a bare LF there makes the
  chunk fail, or, when its data begins with LF, silently shifts the data by one byte: `ResponseChunks.OtherData`
  and `ResponseChunks.BodyDecodes`.
- White space behind the word chunked does not include tabs, so a body with `chunked` and a tab is read until the
  connection is closed: `ResponseLists.ChunkedAndTab` and `ResponseLists.TabIsNoSpace`.
- The merge of histogram files may count responses that there never were, because a long URL is read in pieces
  and a piece may look like a line with a count: `HistMerge.UrlIsMisread` and `HistMerge.CodesAreExact`.
- hdr_init accepts configurations whose mask does not fit its 32-bit type: `HdrHistogram.TooWide` and
  `HdrHistogram.MaskFits`.

## Model

| member | source | states |
|---|---|---|
| `RedBlackTree.Tree.Add` | deps/wepoll/wepoll.c:2036-2069 | From any valid tree: returns -1 and changes nothing when the key is there; else the in-order contents gain exactly this node in its place and links, order, colours and black heights are right again (`Valid`). |
| `RedBlackTree.Tree.Del` | deps/wepoll/wepoll.c:2071-2167 | From any valid tree and any member: the contents lose exactly that node's entry, the node set loses exactly that node, and the tree is valid again; the rebalancing loop ends and every sibling it reads exists. |
| `RedBlackTree.Tree.Find` | deps/wepoll/wepoll.c:2169-2180 | Finds the node of a key; null exactly when the key is not in the contents. |
| `RedBlackTree.Tree.Root` | deps/wepoll/wepoll.c:2182-2184 | Null exactly for the empty tree, otherwise a member. |
| `RedBlackTree.Tree.Descend` | deps/wepoll/wepoll.c:2009-2050 | The search of an insertion ends at the only empty place where the key keeps the order, or at the key itself. |
| `RedBlackTree.Tree.AddFixup` | deps/wepoll/wepoll.c:2059-2066 | From a tree with one red node that may have a red parent, the loop restores every colour rule and keeps contents and nodes. |
| `RedBlackTree.Tree.InsertStep` | deps/wepoll/wepoll.c:2017-2034 | One round keeps the loop's invariant and contents and moves the possible violation strictly upwards. |
| `RedBlackTree.Tree.DelFixup` | deps/wepoll/wepoll.c:2153-2166 | From a tree in which one subtree is a black node short, the loop restores legality; it keeps contents and nodes and ends. |
| `RedBlackTree.Tree.RemoveStep` | deps/wepoll/wepoll.c:2071-2094 | One round ends with a legal tree, or moves the missing black node strictly upwards. |
| `RedBlackTree.Tree.RotateLeft` | deps/wepoll/wepoll.c:1985-2003 | Links after a rotation are those of the rotated shape; the rest of the tree is untouched. |
| `RedBlackTree.Tree.RotateRight` | deps/wepoll/wepoll.c:1985-2007 | The mirror image. |
| `RedBlackTree.Tree.Successor` | deps/wepoll/wepoll.c:2103-2111 | The leftmost node of the right subtree, and the path to it. |
| `RedBlackTree.Tree.UnlinkPair` | deps/wepoll/wepoll.c:2096-2146 | Unlinking a node with two children: its successor takes its place and colour, and the contents lose exactly its entry. |
| `RedBlackTree.Tree.UnlinkOneChild` | deps/wepoll/wepoll.c:2096-2146 | The same for a node with at most one child. |
| `TreeShapes.HeightBound` | deps/wepoll/wepoll.c:2036-2180 | 2^height is at most (n + 1)^2 for n nodes, so the height is at most 2 log2(n + 1). |
| `TreeShapes.SiblingExists` | deps/wepoll/wepoll.c:2071-2094 | At a node whose subtree is one black node short, the sibling exists, and has both children when it is red: no dereference of null. |
| `TreeShapes.RecolorKeepsAdding` | deps/wepoll/wepoll.c:2017-2034 | Recolouring with a red uncle keeps the insertion invariant two levels up. |
| `TreeShapes.OuterKeepsAdding` | deps/wepoll/wepoll.c:2017-2034 | The outer rotation of an insertion restores the colour rules. |
| `TreeShapes.RedSibling` | deps/wepoll/wepoll.c:2071-2094 | A red sibling is turned into a black one, and the shortage stays where it was. |
| `TreeShapes.NearRed` | deps/wepoll/wepoll.c:2071-2094 | A black sibling with only a red near child becomes one with a red far child. |
| `TreeShapes.FarRed` | deps/wepoll/wepoll.c:2071-2094 | With a red far child one rotation ends the shortage. |
| `TreeShapes.BlackSibling` | deps/wepoll/wepoll.c:2071-2094 | Two black nephews: recolouring ends the shortage under a red parent and otherwise moves it one level up. |
| `TreeShapes.InsertedKeys` | deps/wepoll/wepoll.c:2036-2069 | The key set after an insertion is the old one plus the key. |
| `TreeShapes.RemovedKeys` | deps/wepoll/wepoll.c:2071-2167 | The key set after a removal is the old one minus the key. |
| `TreeShapes.RotatedInorder` | deps/wepoll/wepoll.c:1985-2007 | A rotation does not change the in-order contents. |
| `Queues.Queue.Append` | deps/wepoll/wepoll.c:1490-1495 | On the circular doubly linked ring: exactly the node is added at the end; the ring is well formed. |
| `Queues.Queue.Prepend` | deps/wepoll/wepoll.c:1483-1488 | The same at the start. |
| `Queues.Queue.Remove` | deps/wepoll/wepoll.c:1507-1510 | Exactly the node is taken out, and is no longer enqueued. |
| `Queues.Queue.MoveToStart` | deps/wepoll/wepoll.c:1497-1500 | The node becomes the first and the order of the others stays. |
| `Queues.Queue.MoveToEnd` | deps/wepoll/wepoll.c:1502-1505 | The node becomes the last and the order of the others stays. |
| `Queues.Queue.First` | deps/wepoll/wepoll.c:1475-1477 | The first element, or null when there is none. |
| `Queues.Queue.MembersEnqueued` | deps/wepoll/wepoll.c:1516-1518 | Every element of a queue is seen as enqueued. |
| `Queues.Queue.Last` | deps/wepoll/wepoll.c:1479-1481 | The last element, or null when there is none. |
| `PollGroups.PollGroupQueue.Acquire` | deps/wepoll/wepoll.c:994-1012 | Fails exactly when every group is full and no new one can be made; keeps: no group above 32, full groups first, and the number of groups is the ceiling of peak / 32. |
| `PollGroups.PollGroupQueue.Release` | deps/wepoll/wepoll.c:1014-1024 | One acquisition fewer, the group moves to the end, and the same invariant holds. |
| `PollGroups.AcquireExact` | deps/wepoll/wepoll.c:994-1012 | An acquisition keeps the exact relation of sizes, outstanding acquisitions and their peak. |
| `PollGroups.ReleaseExact` | deps/wepoll/wepoll.c:1014-1024 | So does a release, of any group in use. |
| `PollGroups.GroupsNeeded` | deps/wepoll/wepoll.c:994-1024 | Over any sequence of acquisitions and releases: full groups form a prefix, and there are exactly as many groups as the peak, counted independently of the groups, needs. |
| `PortModel.EveryRequestIsWatched` | deps/wepoll/wepoll.c:1730-1770 | Every event a user can ask for, except EPOLLMSG, comes back from the AFD event set that is polled for it. |
| `PortModel.OneQueue` | deps/wepoll/wepoll.c:1412-1441 | A sock_state has one queue node for both queues: the source's test of it agrees with the queue that the socket's state calls for, so no request and no deferred deletion is silently dropped. |
| `PortModel.EventSetKeeps` | deps/wepoll/wepoll.c:1713-1728 | Changing the interest keeps the port invariant: a socket whose poll does not cover it is queued for an update. |
| `PortModel.UpdatedKeeps` | deps/wepoll/wepoll.c:1772-1832 | Updating a socket keeps the invariant whatever the kernel answers: attended afterwards, deleted, or still queued. |
| `PortModel.DeletedKeeps` | deps/wepoll/wepoll.c:1676-1703 | Deleting keeps the invariant: a socket with an outstanding poll stays in the deleted queue, any other is freed. |
| `PortModel.FedKeeps` | deps/wepoll/wepoll.c:1834-1887 | Handling a completion keeps the invariant, and a freed socket had no other poll outstanding. |
| `PortModel.CreatedKeeps` | deps/wepoll/wepoll.c:1635-1674 | A new socket breaks the invariant at most for itself, until its interest is set. |
| `PortModel.ForcedFrees` | deps/wepoll/wepoll.c:1705-1711 | A forced deletion frees exactly the one socket. |
| `PortModel.NothingLeft` | deps/wepoll/wepoll.c:1137-1166 | With an empty tree and an empty deleted queue nothing is allocated, queued or outstanding: the assertion on the update queue holds. |
| `PortRuns.AllUpdatedKeeps` | deps/wepoll/wepoll.c:1168-1184 | The update loop ends, keeps the invariant, and succeeds exactly when it empties the queue. |
| `PortRuns.AllFedKeeps` | deps/wepoll/wepoll.c:1191-1207 | Feeding a batch keeps the invariant, handles exactly its polls and reports at most one event for each. |
| `PortRuns.FedFrees` | deps/wepoll/wepoll.c:1834-1887 | The completion of a deleted socket, or of one that was closed, reports nothing and frees the socket. |
| `PortReports.ReportsAreAsked` | deps/wepoll/wepoll.c:1834-1887 | In every run, each event that epoll_wait reports for a socket was asked for by the latest epoll_ctl for it and carries its data, and a one-shot request is reported at most once. |
| `PortReports.StepHonest` | deps/wepoll/wepoll.c:1713-1728 | Every step keeps: a socket is disarmed exactly when its latest request was one-shot and has been reported, and otherwise has the interest and data of that request. |
| `PortReports.BatchHonest` | deps/wepoll/wepoll.c:1191-1207 | The reports of a batch are the events that the thread gets. |
| `PortDelivery.EachBit` | deps/wepoll/wepoll.c:1753-1770 | An AFD event set is reported as an epoll event exactly when it has one of the events that cause it, for each of the 32 events. |
| `PortDelivery.FoundIsDue` | deps/wepoll/wepoll.c:1834-1887 | For every completion, every event and every request that the socket stands for: it is reported if and only if the packet tells of it and the request asks for it, EPOLLERR and EPOLLHUP in any case, and a one-shot request was not reported before. |
| `PortDelivery.EveryPacketIsAnswered` | deps/wepoll/wepoll.c:1191-1310 | In every run: when a thread resumes, each packet in its hands is answered. A socket that is not being deleted is reported exactly when an event is due to it, once, with exactly the events that are due and the data of its latest request; these are the events that epoll_wait returns. |
| `PortDelivery.AskedIsPolled` | deps/wepoll/wepoll.c:1713-1832 | After any run: while a thread waits and nothing was refused, the poll of a registered socket is outstanding and watches every AFD event that is reported as an event its latest request asks for, and the closing of the socket, unless it is being replaced or a one-shot request has been reported. |
| `PortRuns.DisarmedIsSilent` | deps/wepoll/wepoll.c:1834-1887 | A disarmed socket reports nothing. |
| `PortRuns.StepKeeps` | deps/wepoll/wepoll.c:1168-1385 | Every locked step of every thread keeps the world invariant, and no outstanding poll is forgotten except those the step handles. |
| `PortRuns.NoLostInterest` | deps/wepoll/wepoll.c:1168-1239 | After any run, a registered socket outside the update queue is attended to; while a thread waits and nothing was refused, every registered socket has an outstanding poll that covers its interest or is being replaced. |
| `PortRuns.Lifetimes` | deps/wepoll/wepoll.c:1676-1703 | After any run, an allocated socket is in exactly one of tree and deleted queue, only tree members wait for updates, each socket has at most one poll outstanding (polls are counted), and every outstanding poll, in the kernel or in a thread's hands, belongs to an allocated socket. |
| `Ports.Port.NewSock` | deps/wepoll/wepoll.c:1635-1674 | Null exactly in the source's error cases, with the poll group given back; otherwise the model's new socket. |
| `Ports.Port.Delete` | deps/wepoll/wepoll.c:1676-1703 | Carries out the model's deletion, forced or not, and keeps the counts of the poll groups. |
| `Ports.Port.SetEvent` | deps/wepoll/wepoll.c:1713-1728 | Carries out the model's change of interest. |
| `Ports.Port.Update` | deps/wepoll/wepoll.c:1772-1832 | Carries out the model's update for every answer of the kernel. |
| `Ports.Port.FeedEvent` | deps/wepoll/wepoll.c:1834-1887 | Carries out the model's handling of a completion. |
| `Ports.Port.UpdateEvents` | deps/wepoll/wepoll.c:1168-1184 | The loop over the update queue does what its recursive specification says. |
| `Ports.Port.FeedEvents` | deps/wepoll/wepoll.c:1191-1207 | The loop over a batch does what its recursive specification says. |
| `Ports.Port.CtlAdd` | deps/wepoll/wepoll.c:1319-1334 | One step `Add` of the world, or nothing at all in the error cases. |
| `Ports.Port.CtlMod` | deps/wepoll/wepoll.c:1336-1349 | One step `Mod`; fails exactly for an unknown socket. |
| `Ports.Port.CtlDel` | deps/wepoll/wepoll.c:1351-1359 | One step `Del`; fails exactly for an unknown socket. |
| `Ports.Port.WaitEnter` | deps/wepoll/wepoll.c:1209-1229 | One step `Enter`: the wait starts only when every socket is updated. |
| `Ports.Port.WaitLeave` | deps/wepoll/wepoll.c:1230-1310 | One step `Leave`: the packets are fed, their events reported, and another round starts exactly when there is time and none was found. |
| `Ports.Port.DeletePort` | deps/wepoll/wepoll.c:1137-1166 | From every reachable state without waiting threads the loops end and everything is freed; each group's size is 0 when the group is deleted. |
| `PortClosing.StepKeeps` | deps/wepoll/wepoll.c:591-675 | Every step of ports, handle tree and locks together keeps: whoever is inside a call on a port holds a reference to its node. |
| `PortClosing.NobodyInside` | deps/wepoll/wepoll.c:591-614 | In every run: when epoll_close comes to delete a port, no thread is inside a call on it and none will be, which is what port_delete needs. |
| `Reflocks.Reflock.Unref` | deps/wepoll/wepoll.c:1562-1570 | One reference fewer; signals exactly when the lock is being destroyed and this was the last one. |
| `Reflocks.Reflock.UnrefAndDestroy` | deps/wepoll/wepoll.c:1572-1585 | Waits exactly when another reference remains. |
| `Reflocks.Reflock.Ref` | deps/wepoll/wepoll.c:1554-1560 | One reference more, under the source's assertion. |
| `Reflocks.Reflock.Poison` | deps/wepoll/wepoll.c:1572-1585 | Only the state "destroyed, no references" is poisoned. |
| `Reflocks.MasksAreArithmetic` | deps/wepoll/wepoll.c:1520-1524 | The bit masks of the source are the remainder and the rest in the model's arithmetic. |
| `Reflocks.StepKeeps` | deps/wepoll/wepoll.c:1934-1970 | Every atomic step of any interleaving keeps the invariant that ties words, references and waiters together. |
| `Reflocks.AssertionsHold` | deps/wepoll/wepoll.c:1554-1585 | The four assertions on the word hold in every state the invariant allows. |
| `Reflocks.ReflockSafety` | deps/wepoll/wepoll.c:1520-1585 | After any run of fewer than 2^28 threads: the low bits are the live references, the high bits say whether it is being destroyed, a waiter has a reference or a signal to wait for, and a destroyed node is unreachable. |
| `Reflocks.ExactlyOneSignal` | deps/wepoll/wepoll.c:1562-1585 | Over any run a node is signalled at most once, never without a destroyer that waits for it, and exactly once when the destroyer has waited and waits no longer. |
| `Reflocks.OneSignaller` | deps/wepoll/wepoll.c:1562-1570 | In any state at most one thread is signalling a node, and one waits for it. |
| `Reflocks.WordSays` | deps/wepoll/wepoll.c:1554-1585 | In any reachable state the word of a node is that of a valid lock object with the references that threads hold. |
| `Reflocks.UnrefSignals` | deps/wepoll/wepoll.c:1562-1570 | A release signals exactly when it is the last and a destroyer waits. |
| `Reflocks.DestroyWaits` | deps/wepoll/wepoll.c:1572-1585 | The destroyer waits exactly when another thread holds a reference. |
| `Reflocks.DestroyReturns` | deps/wepoll/wepoll.c:591-614 | When destroy returns no reference is alive, nobody else refers to the node and no search can find it. |
| `Reflocks.GoneStays` | deps/wepoll/wepoll.c:1934-1970 | And that stays so in every later step. |
| `ResponseFold.ParsedConcat` | deps/llhttp/llhttp.c:10247-10279 | The byte-at-a-time specification of a concatenation is the specification of the parts in turn. |
| `ResponseFold.BulkSkip` | deps/llhttp/llhttp.c:1329-1345 | Skipping n bytes inside a body at once is the same as n single bytes. |
| `ResponseFold.SkipAll` | deps/llhttp/llhttp.c:2038-2054 | Skipping to the end of a body at once is the same as byte for byte, and then the body is complete. |
| `ResponseFold.MatchMore` | deps/llhttp/llhttp.c:254-284 | One more matched byte of a fixed sequence, with the index carried in the state. |
| `ResponseFold.ParsedOk` | deps/llhttp/llhttp.c:1225-1365 | Invariant of every reachable state: the open span, the field `finish`, and a body still to be read agree with the state. |
| `ResponseFold.FailedStays` | deps/llhttp/llhttp.c:10247-10279 | After an error the parser consumes nothing and calls nobody. |
| `ResponseFold.LookRank` | deps/llhttp/llhttp.c:1225-1365 | No state is passed for ever without consuming a byte. |
| `ResponseEngine.ResponseParser.Execute` | deps/llhttp/llhttp.c:10247-10279 | The engine that runs to the end of the buffer, skips in bulk, matches in a loop and hands out one fragment for a span and buffer reaches the state and error code of the byte-at-a-time specification, and hands out all that the bytes mean but what an error loses, which is specified. |
| `ResponseEngine.ResponseParser.Consume` | deps/llhttp/llhttp.c:1329-1345 | The bulk skip, also across the end of the buffer. |
| `ResponseEngine.ResponseParser.Match` | deps/llhttp/llhttp.c:254-284 | The matching loop, also across the end of the buffer. |
| `ResponseEngine.ExecuteBoth` | deps/llhttp/llhttp.c:10247-10279 | Split independence: from every reachable state and for all a and b, two calls leave the same state and error as one call on a + b, and the same joined trace if and only if no error in b cuts off a span that was open with data at the end of a. |
| `ResponseLoss.SplitHanded` | deps/llhttp/llhttp.c:10247-10279 | The same about the specification: in that case exactly the data of the span that a holds is handed out in addition. |
| `ResponseLoss.HeldSkipAll` | deps/llhttp/llhttp.c:2038-2054 | What is held back of a span is handed out where a body ends. |
| `ResponseTexts.CutInTwo` | deps/llhttp/llhttp.c:254-284 | A response with a byte that no header name has, cut in two within the name: its first byte is shown, while in one buffer nothing of the name is. |
| `ResponseEof.EofAgreement` | deps/llhttp/http.c:37-153 | Where the headers end in a read-until-close body, `llhttp_message_needs_eof` agrees exactly when the status is not 1xx. |
| `ResponseTexts.EofDisagreement` | deps/llhttp/http.c:37-153 | A response text with status 110 and a coding other than chunked: the parser is in the read-until-close body of a response, and the end of the stream does not complete it. |
| `ResponseEof.ParsedHeard` | deps/llhttp/llhttp.c:660-900 | `finish` is safe exactly outside a response, over every run. |
| `ResponseEof.EofRule` | src/wrk.c:961-968 | Over every byte string from a fresh parser: the end of the stream completes the response if and only if the parser is in the read-until-close body of a response whose status is not 1xx. |
| `ResponseBodies.ChunkSizeLaw` | deps/llhttp/llhttp.c:1031-1055 | For any hexadecimal digits: accepted exactly when the value is below 2^64, and then the stored length is the value. |
| `ResponseBodies.ContentLengthLaw` | deps/llhttp/llhttp.c:809-833 | The same for the decimal digits of Content-Length. |
| `ResponseChunks.ChunkedRoundTrip` | deps/llhttp/llhttp.c:1293-1365 | For any list of non-empty chunks printed as in section 4.1 of RFC 7230, also with a bare LF after data and trailer: the body bytes reported are exactly the data, and the message is complete once, as the last callback. |
| `ResponseChunks.CompleteAtLastByte` | deps/llhttp/llhttp.c:1754-2037 | The message is not complete before the last byte of that text. |
| `ResponseBodies.IdentityRoundTrip` | deps/llhttp/llhttp.c:2038-2064 | A body of known length is reported exactly and completes at its last byte. |
| `ResponseChunks.BodyDecodes` | deps/llhttp/llhttp.c:1754-1785 | For every chunked body, with CR LF or LF after each size, after each chunk's data and after the trailer: exactly its chunks are reported and the message is complete if and only if every size ends with CR LF. |
| `ResponseChunks.ChunkDecodes` | deps/llhttp/llhttp.c:1754-1785 | The same for a single chunk. |
| `ResponseChunks.LfIsError` | deps/llhttp/llhttp.c:1366-1382 | After a size with a bare LF, any byte but another LF is error 2, and nothing is reported. |
| `ResponseChunks.LfShifts` | deps/llhttp/llhttp.c:1366-1382 | After a size with a bare LF, data that begins with LF is reported without it and with the CR behind it, as if nothing were wrong. |
| `ResponseChunks.LfLacks` | deps/llhttp/llhttp.c:1309-1328 | When such data ends with a bare LF, too, the parser still waits for its line end. |
| `ResponseChunks.OtherData` | deps/llhttp/llhttp.c:1754-1785 | A complete body of one chunk whose data is a line feed, for which the parser hands out a carriage return. |
| `ResponseNames.NameRecognised` | deps/llhttp/llhttp.c:3024-3349 | For every header name, in any letter case: after the colon the parser has handed out the name and knows exactly whether it is Content-Length, Transfer-Encoding, Connection, Proxy-Connection or Upgrade, however far another name agrees with one of these. |
| `ResponseNames.TokenBytes` | deps/llhttp/llhttp.c:3039-3107 | The bytes of a name are those of a token in section 3.2.6 of RFC 7230. |
| `ResponseLists.OptionsRead` | deps/llhttp/llhttp.c:2430-2616 | For every value of Connection: the options close, keep-alive and upgrade are noted exactly when an element of the list is that word, in any letter case, with white space around it. |
| `ResponseLists.CodingsRead` | deps/llhttp/llhttp.c:2723-2961 | For every value of Transfer-Encoding: it ends with chunked, for the parser, exactly when the last element is that word with white space before and spaces behind it. |
| `ResponseLists.TabIsNoSpace` | deps/llhttp/llhttp.c:2914-2938 | That differs from white space on both sides exactly in a tab behind the word. |
| `ResponseLists.ChunkedAndTab` | deps/llhttp/llhttp.c:2914-2938 | Such an element. |
| `ResponseHeads.HeaderReads` | deps/llhttp/llhttp.c:2155-3349 | A header field, whatever its name and value: both are handed out, and exactly what it says is noted. |
| `ResponseHeads.HeadersRead` | deps/llhttp/llhttp.c:2111-3361 | Any list of header fields with at most one length, and none together with a coding: the flags and the length are those that the list says, independently of the order of the other fields. |
| `ResponseLines.LineReads` | deps/llhttp/llhttp.c:6291-6910 | A status line of any known version, status and reason phrase, with CR LF or LF: what is handed out and kept of it. |
| `ResponseExtensions.ExtensionRead` | deps/llhttp/llhttp.c:1462-1753 | A chunk extension, bare, with a token or with a quoted value: its name and value are handed out. |
| `ResponseExtensions.ChunkReads` | deps/llhttp/llhttp.c:1293-1907 | A chunk with any extensions is handed out, and the next one is expected; behind an extension a bare LF is enough. |
| `ResponseExtensions.BodyReads` | deps/llhttp/llhttp.c:1293-2126 | A chunked body with any extensions and any trailer of other header fields: all of it is handed out, and the message is complete at the empty line. |
| `ResponseMessages.ResponseReads` | deps/llhttp/llhttp.c:1225-7080 | From a parser that is ready, for every response (status line, header fields in any order, and no body, a body of the announced length, or one in chunks): the callbacks are exactly those of its parts. |
| `ResponseMessages.ResponseDecodes` | deps/llhttp/http.c:11-127 | So the body bytes handed out are exactly the data that was sent, on_message_complete runs once and last, the parser knows the status, and it is ready for another response exactly if the connection stays alive, and closed otherwise. |
| `ResponseMessages.NotBefore` | deps/llhttp/http.c:11-127 | The message is not complete before the last byte of the response. |
| `ResponseMessages.AliveIs` | deps/llhttp/http.c:156-170 | For a response of known length the connection stays alive exactly with HTTP/1.1 unless a Connection header says close, and with other versions if one says keep-alive. |
| `ResponseMessages.StreamDecodes` | deps/llhttp/llhttp.c:10247-10279 | Any number of responses on one connection: the callbacks are those of each in turn, the data is that of all, and as many messages are complete as were sent. |
| `ResponseMessages.UntilClosed` | src/wrk.c:961-968 | A response that announces no length, or whose last coding is not chunked: its body is handed out as it comes, the message is not complete, and the end of the stream completes it. |
| `ResponseMessages.ConflictIsError` | deps/llhttp/llhttp.c:2743-3126 | A response with two lengths, or with a length and a coding, is an error whatever follows. |
| `HdrLayout.IndexFor` | src/hdr_histogram.c:65-71 | The slot of a trackable value is in range, and the value lies between the start of that slot and the start of the next. |
| `HdrLayout.IndexOfSlot` | src/hdr_histogram.c:73-76 | Every slot number comes from one valid pair of bucket and sub-bucket. |
| `HdrLayout.SlotOfIndex` | src/hdr_histogram.c:50-63 | And every valid pair gives one slot number: a bijection. |
| `HdrLayout.Contiguous` | src/hdr_histogram.c:73-76 | Slots follow each other without gap or overlap, also from one bucket to the next. |
| `HdrLayout.IndexMonotone` | src/hdr_histogram.c:65-71 | A larger value never has a smaller slot. |
| `HdrLayout.IndexUnique` | src/hdr_histogram.c:65-71 | The slot whose range holds a value is the only one. |
| `HdrLayout.Members` | src/hdr_histogram.c:65-71 | Every value in the range of a slot is mapped to that slot. |
| `HdrLayout.Equivalents` | src/hdr_histogram.c:86-114 | Lowest, highest and median equivalent values are the ends and the middle of the slot of the value. |
| `HdrLayout.ShiftFits` | src/hdr_histogram.c:86-92 | With unit + buckets at most 31 the 32-bit shift does not overflow. |
| `HdrHistogram.MaskFits` | src/hdr_histogram.c:136-144 | The mask is a positive 32-bit number if and only if unit magnitude and sub-bucket magnitude add up to at most 31. |
| `HdrHistogram.TooWide` | src/hdr_histogram.c:136-154 | A configuration that the source accepts and whose mask does not fit. |
| `HdrHistogram.Init` | src/hdr_histogram.c:125-183 | Fails exactly for wrong significant figures or without memory; otherwise an empty histogram in which every value up to the highest is trackable, half a bucket has at least 10^figures sub-buckets, and the mask fits its type. |
| `HdrHistogram.ComputePower` | src/hdr_histogram.c:29-37 | The loop computes the power. |
| `HdrHistogram.BucketsNeeded` | src/hdr_histogram.c:146-153 | The least number of buckets that covers the highest value. |
| `HdrHistogram.Covered` | src/hdr_histogram.c:136-176 | So every value up to the highest has a bucket. |
| `HdrHistogram.WperfkIsNarrow` | src/wrk.c:1597-1598 | The configuration of wperfk satisfies the condition on the magnitudes. |
| `HdrHistogram.Histogram.RecordValue` | src/hdr_histogram.c:213-226 | The recorded values gain exactly this one, with every count that of the recorded values in its slot. |
| `HdrHistogram.Histogram.RecordValues` | src/hdr_histogram.c:228-241 | The same for several equal values; only one slot changes. |
| `HdrHistogram.Histogram.RecordCorrected` | src/hdr_histogram.c:243-265 | Records the value and the values missing at the expected interval. |
| `HdrHistogram.MissingAre` | src/hdr_histogram.c:255-262 | The missing values are the value less each multiple of the interval, down to the interval itself, and no others. |
| `HdrHistogram.Histogram.Reset` | src/hdr_histogram.c:191-197 | Nothing is recorded any more. |
| `HdrCounts.RankOfSlot` | src/hdr_histogram.c:333-356 | The cumulated counts pass k at the slot of the k-th smallest recorded value. |
| `HdrCounts.SlotOfRank` | src/hdr_histogram.c:333-356 | And only there. |
| `HdrIterators.Iterator.Next` | src/hdr_histogram.c:482-491 | Visits the slots in index order, each with its count, value range and cumulated count, stops when all is counted and never leaves the array. |
| `HdrIterators.Iterator.NextRecorded` | src/hdr_histogram.c:661-673 | Stops at the next slot that is not empty and skips no other. |
| `HdrIterators.Increment` | src/hdr_histogram.c:431-440 | Moving on from one pair of bucket and sub-bucket leads to the next slot number. |
| `HdrIterators.ValueAtPercentile` | src/hdr_histogram.c:333-356 | The highest equivalent of the k-th smallest recorded value, for the only k that is p n / 100 rounded to the nearest whole number (halves upwards), but at least 1, with p capped at 100. |
| `HdrIterators.RankIs` | src/hdr_histogram.c:338-341 | The truncated product is that rank: k - 1/2 <= p n / 100 < k + 1/2 from a share of 1/2 on, and 1 below it. |
| `HdrIterators.OneRank` | src/hdr_histogram.c:338-341 | No other number is. |
| `HdrIterators.PercentileMonotone` | src/hdr_histogram.c:333-356 | A larger percentile is never a smaller value. |
| `HdrIterators.Max` | src/hdr_histogram.c:297-312 | The lowest equivalent of the largest recorded value. |
| `HdrIterators.Min` | src/hdr_histogram.c:314-331 | The lowest equivalent of the smallest recorded value. |
| `HdrIterators.SumOfMedians` | src/hdr_histogram.c:358-374 | The loop sums the median of the slot of every recorded value. |
| `HdrIterators.Mean` | src/hdr_histogram.c:358-374 | That sum divided by the number of values. |
| `HdrIterators.SlotPrecision` | src/hdr_histogram.c:86-114 | With lowest value 1 a slot has width 1 or at most v / 10^figures, and its median is within v / (2 * 10^figures) of v. |
| `HdrIterators.MeanPrecision` | src/hdr_histogram.c:358-374 | The sum of medians is within exact sum / (2 * 10^figures) of the exact sum. |
| `HdrIterators.Add` | src/hdr_histogram.c:267-285 | Drops nothing; the counts are the pointwise sums and the histogram is that of both recordings together. |
| `HdrIterators.AddLive` | src/wrk.c:1697-1706 | Whatever the loop reads in the slots of a histogram that is being filled is added slot by slot, within both arrays, and the result is a histogram whose total is that of its counts. |
| `HdrIterators.AddQuiet` | src/wrk.c:1697-1706 | When the other histogram does not change, the result is that of hdr_add. |
| `Pacing.Connection.UsecToNextSend` | src/wrk.c:674-715 | 0 exactly when the plan, and while catching up the plan with twice the rate, allow a send now; otherwise exactly the time that is missing. A catch-up episode begins exactly when the connection falls behind; in it the plan with twice the rate decides until the connection has recovered twice its backlog, and the original plan alone from then on. |
| `Pacing.Connection.Writeable` | src/wrk.c:884-928 | A batch begins exactly when the plans allow it and the script does not put it off, and the timer gets exactly the time that is missing; the reference points of both latencies move to this batch exactly when it is a new one, and retries and partial writes keep them. |
| `Pacing.Connection.ResponseComplete` | src/wrk.c:742-845 | One completion more, unless the source returns before; the corrected latency is measured from the plan of the batch, the other one from its start, and neither is ever negative. |
| `Pacing.Connection.Connected` | src/wrk.c:857-882 | A reconnect restarts the write of the batch but neither its start nor its plan. |
| `Pacing.Connection.DelayRequest` | src/wrk.c:717-725 | The timer asks again and changes only the catch-up state. |
| `Pacing.Connection.RateBounds` | src/wrk.c:674-715 | At every send that passed the scheduler, a batch begun or begun again after a reconnect, the completions are below (elapsed + 1 us) * rate, and those of the catch-up episode below (elapsed + 1 us) * 2 * rate. |
| `Pacing.PlanBindsAgain` | src/wrk.c:674-715 | For the truncated plans: from twice the initial backlog on, the original one is the later; up to there the one with twice the rate is, and strictly so up to what is planned for one microsecond before. |
| `Pacing.NotAhead` | src/wrk.c:674-715 | A time is not before the truncated plan if and only if the rate, up to one microsecond, has room for one more request by then. |
| `Pacing.Run` | src/wrk.c:674-942 | For any sequence of events with a monotone clock: every send was on its plan, and every recorded latency is the time since the plan for the batch of the response, the uncorrected one the time since that batch was first written. |
| `Pacing.LatestIs` | src/wrk.c:914-920 | The batch of a response is the last send that was not one more attempt of an earlier one. |
| `StopCounter.StepKeeps` | src/wrk.c:742-757 | Every access to shared state, by any thread, keeps: the sum of the counts of the threads past their warm-up and of the responses accepted but not yet counted is min(total, N). |
| `StopCounter.ExactCount` | src/wrk.c:324-330 | After any run: the report, which sums up all threads, is at most N plus what threads still in their warm-up have counted; with nothing pending it is min(total, N) plus that, so it is min(total, N) if and only if no thread is left in its warm-up with a count. |
| `StopCounter.ExactWithoutWarmup` | src/wrk.c:742-845 | Without a warm-up the report never exceeds N and is exactly min(total, N) when nothing is pending. |
| `StopCounter.StillWarmIsReported` | src/wrk.c:593-608 | A run of `-n 1` with a warm-up in which the last response stops the run, all threads leave, and two responses are reported. |
| `StopCounter.LastKeeps` | src/wrk.c:840-844 | At most one thread ever has the last response. |
| `StopCounter.QuietMeansDone` | src/wrk.c:781-844 | With nothing pending, the last response has stopped the run if and only if N were accepted and the N-th came before the deadline. |
| `StopCounter.LateLast` | src/wrk.c:781-784 | A run in which the N-th response comes at the deadline: N are counted, and yet the run is not stopped by it. |
| `StopCounter.JoinedIsQuiet` | src/wrk.c:319-330 | When every thread has left its event loop nothing is pending, and the same condition decides about the report. |
| `StopCounter.DoneWithResponse` | src/wrk.c:742-845 | A thread that is done with a response goes on if and only if neither N nor the deadline has been reached and it was not to stop before. |
| `StopCounter.StopsSoon` | src/wrk.c:742-757 | Over any run from where `stop` is set: it stays set, and only the threads that had looked at it before may still take a number each. |
| `HistFiles.ReadPrinted` | src/wrk.c:1562-1584 | Reading a printed number gives the number and what follows it. |
| `HistFiles.CountsRoundTrip` | src/wrk.c:1562-1584 | Reading the printed counts adds back exactly these counts and their total, and leaves the rest of the file. |
| `HistFiles.WriteCounts` | src/wrk.c:1534-1542 | The loop prints the header, the slots that are not empty, and the end marker. |
| `HistFiles.ReadCounts` | src/wrk.c:1572-1583 | The loop accepts and adds what its specification says, and refuses a bad line. |
| `HistMerge.FileRoundTrip` | src/wrk.c:1544-1560 | Reading the file of a run with a URL of any length gives back its values and error counts and adds exactly its histograms, and its status counts together with what is misread of the URL. |
| `HistMerge.UrlStep` | src/wrk.c:1620-1638 | The line of a URL that does not fit into the buffer of 4096 is read in pieces, each as a line of its own. |
| `HistMerge.CodesAreExact` | src/wrk.c:1620-1638 | The status counts of a merge are the sums over the runs if and only if no later piece of a URL reads like a count of responses. |
| `HistMerge.ShortIsHarmless` | src/wrk.c:1600-1601 | A URL of at most 4091 characters has no such piece, and is read back whole. |
| `HistMerge.UrlIsMisread` | src/wrk.c:1620-1638 | A URL of 4102 characters that adds seven responses of status 200 to a merge. |
| `HistFiles.Fgets` | src/wrk.c:1572-1574 | What a call of fgets returns and leaves: a line, or as much of it as fits. |
| `HistMerge.MergeRoundTrip` | src/wrk.c:1603-1653 | Merging the files of any list of runs gives the sum of the runs, with what is misread of their URLs. |
| `HistMerge.AnyOrder` | src/wrk.c:1603-1653 | That sum does not depend on the order of the files. |
| `HistMerge.Pointwise` | src/wrk.c:1603-1653 | In it every slot and the total of both histograms, and every status code, has the sum over all runs, the codes with what is misread of the URLs. |
| `HistMerge.MetaSums` | src/wrk.c:1643-1656 | Over any list of runs, and whatever the order of the fields: rate, threads, connections, requests, bytes and each of the six error counts are the sums, and the run time is at least that of every run and is attained. |
| `HistMerge.UrlOfAll` | src/wrk.c:1622-1625 | The URL of the result is that of the runs if they agree, and otherwise says that there are several. |
| `HistMerge.Merge.ReadTurn` | src/wrk.c:1621-1638 | One line of a file: the branch taken, in the source's order, and what it adds. |
| `HistMerge.Merge.ReadFile` | src/wrk.c:1614-1641 | The loop over the lines of a file. |
| `HistMerge.Merge.ReadFiles` | src/wrk.c:1603-1653 | The loop over the files; it gives up exactly where the specification does. |
| `UrlParser.ParseUrl` | src/url.c:21-116 | The cursor loops accept and report exactly what the grammar-like specification does, over every text. |
| `UrlParser.ScanPort` | src/url.c:74-83 | Accepts exactly digits of value at most 65535 and computes the value. |
| `UrlParser.FindLastAt` | src/url.c:41-43 | The last '@' of the authority. |
| `UrlParser.UrlRoundTrip` | src/url.c:21-116 | Parsing a URL assembled as in section 3 of RFC 3986 from parts in the accepted classes succeeds and reports exactly these parts and the port's value. |
| `UrlParser.UrlOrdered` | src/url.c:21-116 | Its components are reported at ordered, disjoint offsets. |
| `UrlFields.AcceptedLaid` | src/url.c:21-116 | For every accepted text: each reported component is not empty, in its class and inside the text, the components are ordered and disjoint, and the port is the value of its digits. |

## Left out

- Ports.Port.Delete: the port's tree is a map and its queues are sequences here; that the linked tree and the linked queue implement these operations is proved in `RedBlackTree` and `Queues`, but the two are not plugged together in one heap.
- RedBlackTree.Tree.UnlinkPair: the assignments for a node with two children are grouped into taking the successor out and putting it in the node's place; the source interleaves them and reaches the same links.
- Ports.Port.NewSock: the lookup of the base socket and the creation of a poll group are parameters that succeed or fail, as are allocations.
- The NT calls themselves (AFD polls, completion ports, keyed events): free answers in the port model, one rendezvous step in `Reflocks`. Error codes of Win32 are not modelled.
- Closing a port while threads wait: that the waits end when the completion port is closed is the kernel's part; what follows from it is in `PortClosing`.
- Reflocks.ReflockSafety: memory ordering of the interlocked operations is taken as sequentially consistent.
- Thread safety of the port outside its lock: each body that runs with the lock held is one step.
- ResponseEngine.ResponseParser.Execute: positions and texts of errors are not modelled, nor the span field after an error; callbacks always return 0, so pausing and user errors are left out.
- ResponseStates: a state is one in which the generated code waits for input; states it only passes through are part of the step before. SIMD fast paths skip the same bytes as the plain loops and are not modelled.
- ResponseMessages.ResponseReads: lines that are folded, lengths with other text behind the digits, and bytes that are not allowed where they stand are errors of the model that this grammar does not produce; a trailer holds no framing or Connection headers, and with status 101 another protocol begins.
- Requests, RTSP, ICE, the HTTP/2 preface, what follows a protocol upgrade, and lenient flags other than the optional CR.
- ResponseEof.EofRule: about the first parser of a connection; wperfk initialises the parser again on every connect, so each connection starts with a fresh one.
- HdrHistogram.Init: `log` and `pow` are integer logarithms and powers; the configurations are those whose mask fits its type (`HdrHistogram.MaskFits`) and whose unit and bucket magnitudes add up to at most 31, since the source does not work beyond (`HdrLayout.ShiftFits`).
- HdrHistogram.Histogram.RecordValue: a value beyond the last bucket stops the source at an assertion, so callers record trackable values only; counts do not overflow 64 bits.
- HdrIterators.ValueAtPercentile: percentiles are real numbers, not doubles; so is the quotient of `HdrIterators.Mean`.
- The standard deviation, the percentile, linear and logarithmic iterators and the printed percentile table.
- HdrIterators.AddLive: each slot is read once, as one access; what the total of the other histogram says meanwhile is not used by the source either.
- Pacing.Connection.Writeable: the throughput is a real number and the plan is truncated to microseconds as in the source; that the timers of the event loop round up to milliseconds is not modelled, since a timer only asks again. Lua hooks are a parameter (`delay`).
- Pacing.Connection.RateBounds: a request that is written in several pieces passes the scheduler once, with its first piece, as in the source.
- Pacing.Connection.ResponseComplete: only rate mode; whether it returns early is a parameter, which `StopCounter` is about.
- StopCounter.ExactCount: `stop` and the shared counter are sequentially consistent; each access to them is a step, and what a thread does between two of them is part of a step.
- HistMerge.MergeRoundTrip: the totals of several runs do not wrap around.
- HistMerge.FileRoundTrip: the check that both histograms have this program's configuration is one condition on the header line.
- Opening files, messages, and what the merge prints from its result.
- UrlParser.UrlRoundTrip: characters are those below 256 that the parser sees as bytes; `strchr` also finds the terminating zero byte, which `IsUserinfoChar` therefore accepts.
- Sockets, TLS, DNS, signals, options, reports, the Prometheus endpoint, the event loop, Lua and the sampling statistics: plumbing and library calls.
