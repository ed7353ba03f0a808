# zway-server: a verified model

zway-server is a store-and-forward messenger server. Clients hold TLS sessions, post requests and
uploads, and receive what others left for them. This project models the parts of the server that
carry state across threads and across time, in Dafny, and proves what they keep. Nothing was
executed.

The usual shape is this. What an operation does is a function on values; the object that performs it
is a class with a function that gives its abstract value, and its methods are proved to change that
value as the function says; and the results about whole runs, any interleaving, any input, are lemmas
about the functions. What a function means is stated again without it, in terms of the fields and
places of the data or of the history of steps, so that the results do not rest on the function alone.
(The classes of the packet sender, the connection pool and the session table are
specified by their contracts and by functions for the single table operations instead.) Where many
threads share state, a run is a sequence of small steps, one for each critical section of the code.

| file | part of the server |
|---|---|
| `SendPump.dfy` | the send pump with any number of worker threads inside it |
| `PacketSender.dfy` | the send pump as one step, and what the peer receives |
| `Framing.dfy` | the receive chain |
| `RequestStore.dfy`, `RequestHandlers.dfy` | the request collection, the handlers on it, the inbox |
| `RequestLaws.dfy` | what each operation means for the records, their fields and places |
| `RequestHistory.dfy`, `RequestInvariants.dfy` | where every record goes; contact requests, add codes, answers, acknowledgements |
| `RequestRaces.dfy` | handlers that overlap, and pairs of accounts that get two contact requests |
| `SessionRequests.dfy`, `DeliveryRaces.dfy` | delivering requests to a client and its responses; deliveries that overlap |
| `StreamBuffers.dfy`, `BufferCache.dfy` | upload files read while they are written, parts, the cache and its sweep |
| `ConnectionPool.dfy` | the database connection pool |
| `SessionRegistry.dfy` | the table of sessions |
| `LockOrder.dfy` | every mutex of the server and the order in which they are taken |
| `Converters.dfy` | UBJ to BSON and back |

Things learned from the code while proving:

- Two writes can be outstanding at once on a session, and begin in the other order than they were
  posted, because `m_sending` is tested and set in separate critical sections. Nothing is lost or
  stranded by that. `ExclusiveUnlessOverlap` gives the one step that leads there.
- `acquire` can return null exactly if there are more threads than connections, which with 25
  connections means for more than 24 workers; up to 50 can be asked for.
- Acceptance and rejection delete by id alone. A record leaves through somebody who has no right to it
  exactly when an answer names an id that an earlier record also carries
  (`OnlyTheEntitledUnlessShadowed`); `RejectionCanRemoveAnothersPush` shows such a case.
- A new upload buffer has never been used, so the next sweep of the cache evicts it. If a download
  opens the file before all of it has been written, the buffer it opened stays short of the file for
  as long as it is cached (`ShortUntilEvicted`); a sweep that evicts it puts things right
  (`SweepRepairsWhatItEvicts`). A cached buffer that is short of its file is the only way in which a
  download can get less than the file (`FetchesWholeUnlessCachedShort`), and where none is short, a
  write through an evicted buffer whose file was opened again is the only step that makes one
  (`AgreesUnlessWrittenBehind`).
- An add code can be redeemed again; the second redeemer's request goes to the first one, whose own
  request disappears (`SecondRedemption`). If the first redeemer's request fails to be stored the
  code is lost, and nobody is told (`UnstoredRedemptionLosesTheCode`).
- Counting exactly one pending request keeps a pair of accounts at one contact request exactly as long
  as no two handlers are between look and insertion for the same pair (`PairsSafeUnlessOverlap`,
  `OverlapLeadsToTwo`). With two in the store every further one is stored as well, until removals
  have left a single one (`UncaughtUntilOneIsLeft`).
- Two workers that deliver to the same session at once can post a request twice;
  `DeliveryRaces.SafeUnlessOverlap` gives the one step that leads there.
- A head that arrives in two pieces stops a session; a body may be cut anywhere.
- A login that completes on a session that was closed meanwhile leaves it in the registry until it is
  closed once more (`LateLoginStaysUntilClosedAgain`).

## Assumptions

- The engine base class: posting a request makes its type and id pending, the response to it ends
  that before the callback runs; asking the stream senders for packets yields zero or more,
  and if it yields none nothing was ready. Its own locks are not modelled.
- The packet head is a block of fixed length from which stream id and body size can be read; both
  functions and the length are parameters, as is the largest packet body.
- The database returns rows in insertion order and a removal takes the first match. Each handler runs
  as one step, except in `RequestRaces`, where it looks, inserts and deletes in three; each pass over
  a session's requests runs as one step, except in `DeliveryRaces`, where each test and each post is a
  step of its own. An insert may fail, which the code does not notice; queries and removals do not.
- `Push` and `AddContact` are the request types that `DB::getInbox` and `DB::numContactRequests` query
  as 4100 and 3100.
- A lookup that reads the public key of a request without one throws out of the handler.
- Ids are natural numbers; reinterpreting 32-bit ids as signed numbers and back is the identity.

## Model

| member | source | states |
|---|---|---|
| SendPump.NoStrandedPacket | src/session.cpp:440-513 | in every interleaving of posts, kicks and write completions a waiting packet, and a stream sender not yet asked, has a thread or a write that leads to it; popped then queued packets are those pushed, in order; each packet taken is in exactly one place |
| SendPump.StepKeepsSomebody | src/session.cpp:440-513 | whoever sees the flag set leaves another responsible party behind, for every single step |
| SendPump.TakenThenQueuedIsPosted | src/session.cpp:455-474 | over any run the packets popped followed by the queue are what the steps posted and the stream senders produced, in order; sent and failed are what completed so |
| SendPump.KickIsAnswered | src/session.cpp:1773-1783 | once the pump has come to rest after a kick, some worker has found the queue empty since and asked the stream senders |
| SendPump.PumpDrains | src/session.cpp:275-300 | from any reachable state, without new work the pump stops after a bounded number of steps, only when nothing is left, and then every packet ever pushed was handed to the socket exactly once, whether its write ended well or not |
| SendPump.TwoWritesAtOnce | src/session.cpp:442-449 | a schedule of two workers that puts two writes in flight, begun in the other order than the packets were posted |
| SendPump.ExclusiveUnlessOverlap | src/session.cpp:494-500 | a step keeps one sender at a time if and only if it is not a check that passes between another worker's check and its setting of the flag |
| SendPump.UninterruptedSend | src/session.cpp:440-513 | a worker that is not interrupted takes the first packet, sets the flag and adds one write: what the one-step sender does |
| SendPump.OneWriteWithoutOverlap | src/session.cpp:440-513 | runs without that step have at most one write in flight, and writes begin in posting order |
| PacketSender.PacketSender.SendPacket | src/session.cpp:440-513 | as one step: refused while a write is outstanding, otherwise the first packet's head and then body go on the wire |
| PacketSender.PacketSender.PostPacket | src/session.cpp:1753-1769 | a null packet is refused, any other is queued behind the rest, and sending starts if it can |
| PacketSender.PacketSender.OnPacketSent | src/session.cpp:275-300 | completion, failed or not, sends the next packet if there is one |
| PacketSender.PacketSender.PeerReceivesInOrder | src/session.cpp:481-510 | a peer that reads the wire in any pieces receives posted packets in posting order; if it reads it all, all that were taken |
| Framing.DeliveredExactlyWhenComplete | src/session.cpp:340-436 | for every packet list and every cutting of its bytes, the packets delivered are the prefix whose bytes have been read completely, no more and no fewer |
| Framing.AllDelivered | src/session.cpp:340-436 | when all bytes have been read all packets have been delivered in order |
| Framing.StopsExactlyWhenBroken | src/session.cpp:358-385 | reading stops if and only if a read failed or a head arrived in part |
| Framing.OutstandingReadCanComplete | src/session.cpp:517-562 | otherwise the outstanding read asks for at least one byte and no more than is still to come |
| Framing.UniqueParse | src/session.cpp:481-492 | bytes of well-formed packets can be read back as packets in only one way |
| Framing.ClosedExactlyWhenPeerGone | src/session.cpp:366-385 | over any run the session closes if and only if the last completion said that the peer is gone |
| Framing.EngineGetsStreamPackets | src/session.cpp:317-331 | each packet reaches the engine as often as it was received if it has a stream id and a body, otherwise never, in the order of reception |
| Framing.EngineGetsAll | src/session.cpp:304-336 | once all bytes of a packet list are read, the engine has had exactly its packets with stream id and body |
| Framing.PacketReceiver.OnPacketHeadRecv | src/session.cpp:340-386 | the head read's completion does what the state machine says, errors included |
| Framing.PacketReceiver.OnPacketBodyRecv | src/session.cpp:390-436 | the body buffer is filled from the offset on; the offset never goes back |
| Framing.PacketReceiver.OnPacketRecv | src/session.cpp:304-336 | the packet is counted, is passed to the engine if it has a stream id and a body and to nobody otherwise, and the next head is awaited |
| RequestLaws.DispatchLaw | src/session.cpp:742-773 | a dispatch takes out the first record of that id that the caller sent or is to receive, and nothing else; replies and refusals |
| RequestLaws.AcknowledgementLaw | src/session.cpp:692-703 | a status-1 response takes out the first record of that id for that account, and nothing else |
| RequestLaws.UploadLaw | src/session.cpp:1881-1906 | a complete upload appends one dispatch record from source 0 to its account |
| RequestLaws.AnswerLaw | src/session.cpp:1388-1589 | a granted answer appends one record back to the source of the first record of that id for the caller, with the caller's own key on an acceptance, and the first record of that id goes |
| RequestLaws.AnswerRefused | src/session.cpp:1388-1589 | any other answer changes nothing, with the failure for each reason |
| RequestLaws.TargetLaw | src/session.cpp:1166-1221 | a contact request is for the source of the first contact request with its code, or without a code for the account found by the name |
| RequestLaws.PendingIsExactlyOne | src/db.cpp:476-493 | a request counts as pending if and only if exactly one place in the store holds such a record |
| RequestLaws.ContactRequestLaw | src/session.cpp:1223-1298 | an allowed contact request appends one record with its source, target, code and key, and the first record with the code goes |
| RequestLaws.ContactRequestRefused | src/session.cpp:1140-1255 | any other contact request changes nothing and fails |
| RequestLaws.CreateAddCodeLaw | src/session.cpp:1302-1384 | a new add code appends a contact request of its creator to nobody with the code and key |
| RequestLaws.PushLaw | src/session.cpp:1632-1673 | a push appends one record for each entry for another account, in the order of the entries, with that entry's recipient and key, and no other |
| RequestLaws.PushWakes | src/session.cpp:1642-1672 | everybody else named in a push is told once per entry, the sender never |
| RequestHistory.EveryRecordAccountedFor | src/session.cpp:742-1680 | in every run each record ever stored is still there or was taken out by exactly one step, whose caller had a right to it if and only if the step was not an answer that names an id found on an earlier record |
| RequestHistory.OnlyTheEntitledUnlessShadowed | src/session.cpp:1498 | over a whole run, every record leaves through its recipient, its dispatching source or its add code if and only if no answer in the run is shadowed by an earlier record with its id |
| RequestHistory.EntitledUnlessShadowed | src/session.cpp:1581 | one step: the record deleted by id is addressed to the caller, or is one in front of the caller's own with the same id, exactly in the shadowed case |
| RequestHistory.ContactRequestsLeaveByTheirParties | src/session.cpp:1388-1513 | with contact request ids not shared, no answer takes out the wrong contact request and no acknowledgement takes one out: each leaves only through its source or recipient, or its code |
| RequestHistory.AtMostOneAnswer | src/session.cpp:1517-1589 | a contact request is answered at most once, counting every answer ever given, and is gone once answered |
| RequestInvariants.AnswerReplacesExactlyTheFirst | src/session.cpp:1463-1498 | an answer adds one record back to the source, an acceptance with the key of the account that accepts; the deletion by id hits the answered request if and only if none before it has the same id |
| RequestInvariants.RejectionCanRemoveAnothersPush | src/session.cpp:1581 | a rejection that deletes another recipient's copy of a push |
| RequestInvariants.OneRequestPerPair | src/session.cpp:1223-1232 | in every reachable store there is at most one contact request per source and destination |
| RequestInvariants.PendingMeansAny | src/db.cpp:476-493 | which makes counting exactly one the same as there being one |
| RequestRaces.UninterruptedHandler | src/session.cpp:1223-1280 | look, insertion and deletion without interruption are the operation as one step |
| RequestRaces.PairsSafeUnlessOverlap | src/session.cpp:1223-1268 | with handlers that overlap in any way, a step keeps every pair at one contact request, stored or about to be, if and only if it is not a look that goes ahead while another handler is between look and insertion for the pair |
| RequestRaces.OverlapLeadsToTwo | src/session.cpp:1223-1268 | from such a look the two handlers only have to go on to store two requests for the pair |
| RequestRaces.OnePerPairWithoutOverlap | src/session.cpp:1223-1268 | runs without such a look never have two contact requests for a pair |
| RequestRaces.InsertKeepsUniqueExactlyWhenAbsent | src/session.cpp:1257-1268 | an insertion decided on an earlier store keeps pairs unique if and only if no request for its pair has been stored by then |
| RequestRaces.RefusedExactlyWhenOne | src/db.cpp:476-493 | what any operation does to the number of requests of a pair: a contact request adds one unless there is exactly one, a removal takes one |
| RequestRaces.UncaughtUntilOneIsLeft | src/db.cpp:482 | from two requests on, over any run, every further contact request for the pair is stored until removals have left exactly one |
| RequestInvariants.OneRequestPerCode | src/session.cpp:1347-1367 | with fresh codes every reachable store has at most one record per code |
| RequestInvariants.RedemptionPassesTheCode | src/session.cpp:1170-1188 | a redemption replaces the record with the code by the redeemer's request to its source and changes nothing else |
| RequestInvariants.SecondRedemption | src/session.cpp:1257-1280 | a redeemed code can be redeemed again if and only if the caller could send the first redeemer a contact request; it then goes to the first redeemer, and costs the latter its request |
| RequestInvariants.UnstoredRedemptionLosesTheCode | src/session.cpp:1257-1280 | a redemption whose insertion fails unnoticed reports success, leaves no record with the code, and every later redemption is refused |
| RequestInvariants.RepeatedAcksHarmlessExactlyWhenUnique | src/session.cpp:692-703 | any number of status-1 responses touch only records of that id for that account; repeats change nothing if and only if there is at most one |
| RequestHandlers.RequestDb.ProcessDispatchRequest | src/session.cpp:742-773 | deletes the first record of that id of which the caller is source or destination; replies and refusals |
| RequestHandlers.RequestDb.ProcessAddContactRequest | src/session.cpp:1140-1298 | stores first and deletes by code afterwards, which equals replacing the old record; every refusal leaves the store alone |
| RequestHandlers.RequestDb.FindContact | src/session.cpp:1166-1221 | the account by code, else by name |
| RequestHandlers.RequestDb.ProcessCreateAddCode | src/session.cpp:1302-1384 | stores a contact request without destination under the code |
| RequestHandlers.RequestDb.ProcessAcceptContact | src/session.cpp:1388-1513 | the acceptance and the deletion by id, refusals, and the exception for a record without public key |
| RequestHandlers.RequestDb.ProcessRejectContact | src/session.cpp:1517-1589 | the rejection and the deletion by id, and refusals |
| RequestHandlers.RequestDb.ProcessPushRequest | src/session.cpp:1593-1680 | the loop over one overwritten object stores the fan-out, each copy with its own key |
| RequestHandlers.RequestDb.StreamReceived | src/session.cpp:1881-1906 | a complete upload stores a dispatch record for its account |
| RequestHandlers.RequestDb.AddRequest | src/db.cpp:436-452 | success is reported whether or not the record was stored |
| RequestHandlers.EachEntryItsOwnKey | src/session.cpp:1642-1673 | each key entry not for the sender has a record of its own, with its key and destination, in order |
| RequestHandlers.PushReachesInboxes | src/session.cpp:1593-1680 | a push extends exactly the lists of its recipients under its sender, once per entry |
| RequestHandlers.RequestDb.GetInbox | src/db.cpp:578-623 | one entry per sender with waiting pushes, ascending, with the ids in stored order |
| RequestHandlers.GroupBySource | src/db.cpp:592-606 | the cursor loop groups ids by sender without losing or reordering any |
| RequestHandlers.InboxIsPartition | src/db.cpp:578-623 | the inbox holds as many ids as there are waiting pushes |
| SessionRequests.DeliveredOnceAtATime | src/session.cpp:566-578 | with each pass as one step: over any mix of passes and responses no two posts of one type and id are outstanding, a pass covers every record, and a second pass adds nothing |
| DeliveryRaces.UninterruptedPass | src/session.cpp:566-738 | tests and posts without interruption are the pass as one step |
| DeliveryRaces.ResponseIsResponse | src/session.cpp:590-604 | a response ends the post it is for and no other, here as in the one-step model |
| DeliveryRaces.SafeUnlessOverlap | src/session.cpp:574-590 | with passes that overlap in any way, a step keeps each request outstanding, or about to be, at most once if and only if it is not a test that passes while another worker is between test and post of the same request |
| DeliveryRaces.OverlapPostsTwice | src/session.cpp:574-590 | from such a test the two workers only have to go on to post the request twice |
| DeliveryRaces.DeliveredOnceWithoutOverlap | src/session.cpp:566-738 | in runs without such a test a request is outstanding once while it is pending and never otherwise |
| SessionRequests.Session.ProcessRequests | src/session.cpp:566-738 | after a pass every record addressed to the session's account is outstanding; every new post is of such a record, and every new contact the source of such an acceptance |
| SessionRequests.Session.OnResponse | src/session.cpp:590-604 | the response ends that post and no other; with status 1, except for a contact request, the first record of that id for this account is gone and all others stay in order |
| StreamBuffers.ReadsAreSlicesOfTheFinalContent | src/streambuffer.cpp:284-356 | under every interleaving of writers and readers the counter never passes the file and never falls, and every read returned that slice of the final content, clipped to what was readable |
| StreamBuffers.FileIsWhatWasWritten | src/streambuffer.cpp:322-356 | under every interleaving the file is its opening content followed by the data of the writes in the order in which they reached it, and every read returned a slice of that |
| StreamBuffers.UninterruptedWrite | src/streambuffer.cpp:322-356 | a write that nobody interrupts appends its data and counts it, as the one-step write does |
| StreamBuffers.OverlappedReadIsAtomic | src/streambuffer.cpp:284-320 | a read that others interrupt returns what one undisturbed read would have returned when it began, and still would from the final file |
| StreamBuffers.AppendingHonoursExactlyTheEnd | src/streambuffer.cpp:322-336 | ignoring the offset of a write is right if and only if the offset is the end of the file |
| StreamBuffers.InOrderUploadIsRandomAccess | src/streambuffer.cpp:284-356 | for uploads in order below 4 GiB the buffer behaves as a random-access file |
| StreamBuffers.WholeFileReadExactlyBelow4GiB | src/streambuffer.cpp:381-386 | the narrowed counter lets a whole file be read if and only if it is shorter than 4 GiB |
| StreamBuffers.LoadedPartsAreUploadedParts | src/streambuffer.cpp:259-282 | a loaded file has the number of parts uploaded, and reading a part at each multiple of the part size gives them back |
| StreamBuffers.SplitUndoesFlatten | src/streambuffer.cpp:272-277 | cutting a concatenated upload gives back its packets |
| StreamBuffers.FlattenUndoesSplit | src/streambuffer.cpp:272-277 | any content is the concatenation of its parts, and they form an upload |
| StreamBuffers.StreamBuffer.Read | src/streambuffer.cpp:284-320 | returns the clipped slice and notes the time |
| StreamBuffers.StreamBuffer.Write | src/streambuffer.cpp:322-356 | appends, counts and notes the time; fails unchanged on no data or a read-only file |
| StreamBuffers.StreamBuffer.Load | src/streambuffer.cpp:259-282 | a loaded buffer can read the whole file and has its number of parts |
| BufferCache.FetchedBufferReadsTheFile | src/server.cpp:360-385 | on any set of files, after any run of uploads, downloads and sweeps without a write behind the cache, a fetched buffer reads exactly its file, cached or reopened |
| BufferCache.AgreesUnlessWrittenBehind | src/server.cpp:486-507 | one step keeps cache and files in agreement if and only if it is not a write through an evicted buffer whose file was reopened |
| BufferCache.FetchesWholeUnlessCachedShort | src/server.cpp:360-385 | in any state a download gets a buffer that falls short of the file if and only if one is cached that does |
| BufferCache.SweepRepairsWhatItEvicts | src/server.cpp:486-507 | after a sweep the file is handed out whole if and only if the sweep evicted the buffer or it was up to date |
| BufferCache.ShortUntilEvicted | src/streambuffer.cpp:259-282 | over any run in which a buffer stays cached, what it misses of its file only grows, so one that is short is handed out short |
| BufferCache.UploadCanBeMissed | src/streambuffer.cpp:230-238 | a run in which an upload is evicted before its first part and a download finds it empty although the file is complete, until a later sweep |
| BufferCache.StaleMeansIdleOrInTheFuture | src/server.cpp:497-500 | the unsigned test evicts after a minute of idleness, and also when the clock went back |
| BufferCache.Cache.AddStreamBuffer | src/server.cpp:328-340 | refuses an id that is cached |
| BufferCache.Cache.GetStreamBuffer | src/server.cpp:360-385 | the object does what the state machine's fetch does: the cached buffer, else a fresh one on the file, else nothing |
| BufferCache.Cache.CachedBufferReadsTheFile | src/server.cpp:360-385 | when the state agrees with the files, so do the buffer objects in the cache: each reads exactly its file |
| BufferCache.Cache.CreateStreamReceiver | src/session.cpp:1864-1917 | refuses an existing file; otherwise creates it and, if a receiver can be made, caches the buffer unless the id is cached |
| BufferCache.Cache.SweepBuffers | src/server.cpp:486-507 | collecting and then erasing is the sweep of the state machine: exactly the stale buffers go |
| BufferCache.WritePart | src/streambuffer.cpp:322-356 | a part written through any buffer object, cached or evicted, is the write of the state machine |
| BufferCache.StreamBufferSender.GetBuffer | src/streambuffersender.cpp:84-101 | binds once, with one fetch, when a buffer or file first exists, and never again |
| BufferCache.StreamBufferSender.PreparePacket | src/streambuffersender.cpp:68-82 | a packet is filled if and only if a buffer is bound or can be |
| ConnectionPool.LeasesAreExclusive | src/db.cpp:86-154 | in every run each connection is free or leased once, and none is lost |
| ConnectionPool.TwoThreadsTwoConnections | src/db.cpp:109-123 | no two threads hold the same connection |
| ConnectionPool.HandedOutInOrder | src/db.cpp:109-154 | over any run connections are handed out in the order in which they were created and came back |
| ConnectionPool.NullExactlyWhenTooFew | src/db.cpp:86-105 | acquire can return null if and only if there are more threads than connections |
| ConnectionPool.SafeWorkerCounts | src/main.cpp:219 | with 25 connections that is never for 0 to 24 workers and possible for every other setting |
| ConnectionPool.Pool.Startup | src/db.cpp:49-71 | queues the connections in order up to the first that fails |
| ConnectionPool.Pool.GetConnection | src/db.cpp:109-123 | takes the front of the queue if there is one |
| ConnectionPool.Pool.Unlock | src/db.cpp:143-154 | puts the connection at the end of the queue |
| SessionRegistry.RegisteredExactlyWhileOpen | src/server.cpp:213-239 | through login, logout, re-login and close a session is registered exactly once under its current id while open and nowhere afterwards, and no list is empty |
| SessionRegistry.RegistryFollowsHistory | src/server.cpp:213-263 | whether and where a session is listed, and its status, are what its own last events say: start, handshake, login, logout, close, or the closing of all |
| SessionRegistry.LoginBreaksExactlyWhenClosed | src/session.cpp:930-940 | a login breaks the registry if and only if its session was closed before |
| SessionRegistry.LateLoginStaysUntilClosedAgain | src/session.cpp:150-200 | such a session stays listed under the account, closed, over any run in which it is not closed again |
| SessionRegistry.Server.AppendSession | src/server.cpp:213-218 | adds the session at the end of its account's list |
| SessionRegistry.Server.RemoveSession | src/server.cpp:222-239 | removes it from that list, and the list when it becomes empty |
| SessionRegistry.Server.GetSessions | src/server.cpp:276-288 | the list of the account, empty if there is none |
| SessionRegistry.Server.Login | src/session.cpp:930-940 | out under the old id, in under the account |
| SessionRegistry.Server.RemoveSessions | src/server.cpp:243-263 | closes every listed session and empties the table |
| LockOrder.PieceRanked | src/server.cpp:407-440 | every outermost critical section of the server, with the buffer files that may be released inside it, takes mutexes in increasing rank |
| LockOrder.NestingsHappen | src/server.cpp:407-507 | each of the listed nestings of one mutex in another occurs in the code, so any safe order must respect it |
| LockOrder.SomebodyCanAlwaysRun | src/server.cpp:458-507 | any number of threads running any sequences of these sections, under any schedule: unless all have finished, one can go on |
| LockOrder.NoWaitingCycle | src/session.cpp:1693-1731 | no reachable state has threads that wait for each other in a circle |
| LockOrder.ClosingWithRemovalStops | src/server.cpp:243-263 | closing with removal inside removeSessions would block a single thread for ever |
| LockOrder.NotifyingUnderTheQueueStops | src/db.cpp:143-154 | notifying under the queue mutex could deadlock with a waiting acquire |
| Converters.ObjectRoundTrip | src/session.cpp:2014-2177 | an object converted to BSON and back is the object without its unsupported members at every depth |
| Converters.StoredInForm | src/session.cpp:2014-2089 | a supported value is stored with each part in its own BSON type, members under their names and items under none, in order |
| Converters.ReadsBackWhatItHolds | src/session.cpp:2093-2177 | a document that holds a value in that form reads back as exactly that value |
| Converters.LastAssignmentWins | src/session.cpp:2145-2159 | for any document, also with repeated names, the object has each name once with its last value |
| Converters.LosslessExactlyWhenSupported | src/session.cpp:2014-2089 | which is the object itself if and only if nothing in it is unsupported or an empty buffer |
| Converters.SecondTripChangesNothing | src/session.cpp:2093-2177 | a second trip changes nothing |
| Converters.ObjectLoop | src/session.cpp:2145-2159 | assigning the members one after the other gives them in order when no name repeats |

## Left out

- Sockets, TLS, asio, the session heartbeat and wall-clock time: completions and times are inputs.
- The engine base class, the packet and buffer base classes and the UBJ readers are not part of this repository; see the assumptions.
- `Zway::Buffer::size` and what a stream sender reads from it: the base class is not part of this repository, so the sender's size field is not modelled.
- Failing queries and removals, and a file write that stores only part of its data.
- Account creation, password checks, name search by pattern, push notifications, logging, configuration and contact status.
- `processUserRequests`, which runs the pass over each session of an account.
- Shutdown of the server while handlers run.
- RequestHandlers.RequestDb.ProcessAcceptContact: the fields of the reply and the caller's own contact entry are not modelled, because no property depends on them.
- RequestHandlers.RequestDb.ProcessPushRequest: the resource ids echoed in the reply are not modelled; they are copied from the request.
- SessionRequests.Session.OnResponse: the stream senders that a push response starts are not modelled here; what such a sender does is `BufferCache.StreamBufferSender`.
- RequestRaces.UninterruptedHandler: the copies of a push are inserted in one step, and the lookups a handler makes before it inserts are one look.
- SessionRegistry.Server.RemoveSessions: session objects have no closed flag of their own; the runs keep one beside them.
- RequestHandlers.RequestDb.ProcessAddContactRequest: the name and phone number copied into requests and replies are not modelled, because no property depends on them.
- LockOrder.PieceRanked: the two halves of a wait on the pool's condition variable are two separate critical sections, because waiting gives the mutex up.
- Converters.ObjectRoundTrip: a value that is not an object at the root converts to an array or an empty document and is not covered.
- 64-bit overflow of the byte counter.
