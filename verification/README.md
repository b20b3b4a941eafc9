# pjlib-util in Dafny

A Dafny model of the parts of PJSIP's `pjlib-util` that have the most state and the most branching, with
proofs about them: the asynchronous DNS resolver and its cache, the DNS wire codec, command-line
scanning, the JSON codec, telnet option negotiation and history, the streaming digests, CRC-32 and
Base64.

Every component has the same three layers.

* **Specification functions** on values (`ReadName`, `PrintPacket`, `Lookup`, `Events`, `WriteElem`, `Fold`, ...).
* **Imperative code** in the form the C code has: classes whose methods update their fields, in-place
  algorithms on arrays, loops with invariants. Each method is proved to compute its specification
  function, error results included.
* **Theorems** about the specification that hold for all inputs, all runs or all reachable states. Where
  the code does not meet a property in general, the theorem is an "if and only if" with the condition
  under which it does, and a lemma gives an input for which it does not. Whether a telnet exchange
  settles depends on the whole run; there, each of two conditions is enough, and a run without them
  never settles.

Some results worth reading first:

* `ResolverQueries.CallbackConservation`: in every interleaving of requests, answers, time-outs, cancels
  and callbacks, accepted requests = delivered + waiting + silenced, and nobody is told twice.
* `ResolverDelivery.TimeoutIsDelivered`: whoever waits at a query that gets no answer is told PJ_ETIMEDOUT
  after at most max(1, qretr_count) expiries; `ResolverTimeouts.ArmedUnlessCancelled` says exactly when
  the timer can expire at all.
* `ResolverCancel.CancelTellsTwiceExactly`: exactly which cancels through a handle tell its request twice,
  before and after its node is recycled.
* `ResolverIds.RunExactly`: exactly when transaction ids stay apart, in terms of the queries that were started.
* `ResolverService.OneStatusForAll`: queries and cache together; whoever waited for an answer and whoever asks
  again while it is kept are told the same status.
* `ResolverCache.MemoryIsReferenceCounted` and `HeldPacketIsStable`: cached packets live exactly as long
  as the table or a callback uses them, and never change under a callback; `HitExactly` says when the
  cache answers.
* `DnsRoundTrip.RoundTrip`: exactly which packets survive printing and parsing. The label table compares
  names with raw packet bytes, so a name can be compressed to a different one; the condition says when.
* `DnsRoom.OverrunsExactly`: exactly at which sizes a packet is printed, and at which of them beyond its size.
* `Getopt.Run` with `GetoptLines.LineIsScanned` and `EveryLine`: a whole series of calls permutes `argv` into
  options then other arguments, each in their original order, and reports what is written on the line.
* `DnsReading.PacketExactly`: the parser accepts exactly the packets of a grammar on bytes, with records of all
  types, and reads what they say.
* `JsonGrammar.DocumentExactly`: the JSON reader accepts exactly the documents of a grammar, and reads what they mean.
* `JsonRoundTrip.TreeRoundTrip`: exactly which trees come back from their text.
* `Telnet.QuietEndsAgree`: two ends agree whenever nothing is under way, even when they ask while waiting;
  every exchange settles if no end asks while it waits or if settings do not change, and without
  either it need not (`ExchangeNeedNotSettle`).
* `Sha1.CountIsRight`: exactly which piece lengths the bit count gets right.

## Layout

| component | files |
|---|---|
| resolver | `ResolverNet` (tables and their invariant), `ResolverRuns` (requests, steps, runs), `ResolverQueries`, `ResolverIds`, `ResolverTimeouts`, `ResolverDelivery` and `ResolverCancel` (theorems), `ResolverService` (queries and cache together), `Resolver` (the object), `ResolverCache`, `Nameservers`, `AResponse` |
| shared | `Bytes`, `Options` |
| DNS packets | `DnsTypes`, `DnsName`, `DnsParser`, `DnsReading` (a grammar for it), `DnsPrinter`, `DnsRoundTrip`, `DnsRoom`, `DnsQuery`, `DnsCopy` |
| getopt | `Getopt`, `GetoptLines` (how lines are written) |
| JSON | `JsonString`, `JsonTree` (specification), `JsonReader`, `JsonGrammar` (a grammar for it), `JsonWriter`, `JsonRoundTrip` |
| telnet | `Telnet`, `History` |
| digests and codes | `Digest`, `Sha1`, `Md5`, `Hmac`, `Crc32`, `Base64` |

`dafny verify dfyconfig.toml` checks everything.

## Model

| member | source | states |
|---|---|---|
| `Resolver.Resolver.AllocNode` | pjproject/pjlib-util/src/pjlib-util/resolver.c:685-711 | takes the head of the free list, or a new node; nothing else changes |
| `Resolver.Resolver.StartQuery` | pjproject/pjlib-util/src/pjlib-util/resolver.c:1024-1075 | the step `Start`: join the pending query for the same resource, or take the next id, transmit and enter both tables, or give the node back; keeps the invariant unless the id laps a pending one |
| `Resolver.Resolver.CancelQuery` | pjproject/pjlib-util/src/pjlib-util/resolver.c:1082-1104 | of any node: only its own timer and callback go, and the callback is made if there is one and it is to be notified; the step `Cancel`, which keeps the invariant, unless it notifies a request that was told before |
| `Resolver.Resolver.OnTimeout` | pjproject/pjlib-util/src/pjlib-util/resolver.c:1619-1663 | the step `Expire`: retransmit while the count allows and transmission works, else dequeue with PJ_ETIMEDOUT; keeps the invariant |
| `Resolver.Resolver.OnReadComplete` | pjproject/pjlib-util/src/pjlib-util/resolver.c:1787-1810 | the step `Response`: an id without a pending query changes nothing, else the query leaves both tables; keeps the invariant |
| `Resolver.Resolver.CallNext` | pjproject/pjlib-util/src/pjlib-util/resolver.c:1812-1831 | one callback made without the lock: the next of parent and children is told the status of the flight, and nobody else |
| `Resolver.Resolver.RecycleNodes` | pjproject/pjlib-util/src/pjlib-util/resolver.c:1842-1854 | children in order and then the parent go to the tail of the free list; keeps the invariant |
| `ResolverRuns.StepInv` | pjproject/pjlib-util/src/pjlib-util/resolver.c:912-1104 | every step that does not lap an id keeps the whole invariant: tables, child lists, free list, callbacks in progress, timers and the account of requests |
| `ResolverRuns.RunInv` | pjproject/pjlib-util/src/pjlib-util/resolver.c:912-1854 | the invariant holds in every reachable state |
| `ResolverQueries.EveryNodeInOnePlace` | pjproject/pjlib-util/src/pjlib-util/resolver.c:685-711 | in every reachable state both tables index the same nodes, each under its own id and key, and every node is in exactly one place: pending, child of one parent at one position, being notified, or free |
| `ResolverQueries.AgreementNeedsFreshId` | pjproject/pjlib-util/src/pjlib-util/resolver.c:1045-1066 | starting a query keeps the two tables in agreement if and only if its id is not in use by a pending query |
| `ResolverQueries.IdsDiffer` | pjproject/pjlib-util/src/pjlib-util/resolver.c:1050-1052 | the sequence of ids: never 0, and any 65535 consecutive ones differ |
| `ResolverQueries.IdsCanLap` | pjproject/pjlib-util/src/pjlib-util/resolver.c:1045-1066 | a run after which the next query gets an id still in use and the two tables disagree |
| `ResolverIds.NextIdOfRun` | pjproject/pjlib-util/src/pjlib-util/resolver.c:1045-1066 | in every run the next id is the one after as many as new queries were started |
| `ResolverIds.LapsExactly` | pjproject/pjlib-util/src/pjlib-util/resolver.c:1045-1066 | a new query gets the id of a pending one if and only if, since that one was entered, a multiple of 65535 new queries were started |
| `ResolverIds.RunExactly` | pjproject/pjlib-util/src/pjlib-util/resolver.c:912-1854 | a sequence of possible steps is a run in which no id laps if and only if the ids have not come round whenever a new query is sent |
| `ResolverIds.FewQueriesNeverLap` | pjproject/pjlib-util/src/pjlib-util/resolver.c:1045-1066 | in particular when fewer than 65535 new queries start while any one is pending |
| `ResolverQueries.CallbackConservation` | pjproject/pjlib-util/src/pjlib-util/resolver.c:912-1854 | after every run: accepted = delivered + waiting + reading from the cache + silenced, as disjoint sets and as numbers, and no request is delivered twice |
| `ResolverQueries.RunIsFinal` | pjproject/pjlib-util/src/pjlib-util/resolver.c:1082-1104 | deliveries are never taken back, and a request delivered or silenced stays so |
| `ResolverTimeouts.ExpiriesAreCounted` | pjproject/pjlib-util/src/pjlib-util/resolver.c:1643-1659 | while a query is neither answered nor timed out, its transmission count grows by exactly its timer expiries |
| `ResolverTimeouts.UnansweredTimesOut` | pjproject/pjlib-util/src/pjlib-util/resolver.c:1619-1663 | a query that is not answered is dequeued with PJ_ETIMEDOUT by at most max(1, qretr_count) expiries |
| `ResolverTimeouts.PendingWasEntered` | pjproject/pjlib-util/src/pjlib-util/resolver.c:1060-1066 | every pending query was entered by a request that was sent, and has been pending since |
| `ResolverTimeouts.ArmedUnlessCancelled` | pjproject/pjlib-util/src/pjlib-util/resolver.c:1091-1097 | the timer of a pending query can expire if and only if its node was not cancelled since the request that entered it |
| `ResolverTimeouts.CancelStrandsChildren` | pjproject/pjlib-util/src/pjlib-util/resolver.c:1082-1104 | the run in which cancelling a parent leaves a waiting child without a time-out |
| `ResolverTimeouts.FlightDelivers` | pjproject/pjlib-util/src/pjlib-util/resolver.c:1661-1699 | when the nodes of a dequeued query are recycled, everyone who waited at it and was not cancelled meanwhile has been told its status |
| `ResolverDelivery.RunWaits` | pjproject/pjlib-util/src/pjlib-util/resolver.c:1024-1104 | a request that waits at a query goes on waiting there while the query is neither answered nor timed out and the request is not cancelled |
| `ResolverDelivery.TimeoutIsDelivered` | pjproject/pjlib-util/src/pjlib-util/resolver.c:1619-1700 | a request that waits at a query, is not cancelled and gets no answer is told PJ_ETIMEDOUT after at most max(1, qretr_count) expiries, before the nodes are recycled |
| `ResolverCancel.CancelTellsTwiceExactly` | pjproject/pjlib-util/src/pjlib-util/resolver.c:1096-1100 | cancelling through a handle, until its node is given out again, tells the request twice if and only if it is to be notified, its callback was made or its node recycled, and it was not cancelled before |
| `ResolverCancel.CallbackUnlessCancelled` | pjproject/pjlib-util/src/pjlib-util/resolver.c:1096-1100 | while a handle is held its node has the callback if and only if it was not cancelled |
| `ResolverCancel.InUseIsHeld` | pjproject/pjlib-util/src/pjlib-util/resolver.c:685-711 | every node in use that has a callback is the handle of a request that was accepted |
| `ResolverCancel.NothingAfterCancel` | pjproject/pjlib-util/src/pjlib-util/resolver.c:1082-1104 | after a cancel through its handle returns, a request is never called back |
| `ResolverCancel.LateCancelTellsTwice` | pjproject/pjlib-util/src/pjlib-util/resolver.c:1096-1100 | the run: a request is answered and told, and a cancel tells it again, before its node is recycled and after |
| `ResolverCancel.StaleHandleSilencesAnother` | pjproject/pjlib-util/src/pjlib-util/resolver.c:685-711 | the run goes on: the node is given to another request, which a cancel through the old handle silences |
| `ResolverCancel.ReusedInOrder` | pjproject/pjlib-util/src/pjlib-util/resolver.c:685-711 | nodes are given out again in the order in which they became free: the one at place p of the free list not before p more requests |
| `ResolverCancel.ParentIsReusedLast` | pjproject/pjlib-util/src/pjlib-util/resolver.c:1842-1854 | the nodes of a query become free together, its own after those of all who joined it |
| `DnsTypes.KeyIdentifiesResource` | pjproject/pjlib-util/src/pjlib-util/resolver.c:848-865 | two requests share a key if and only if they ask for the same type and the same name up to case |
| `DnsTypes.SameNameIsCaseless` | pjproject/pjlib-util/src/pjlib-util/dns.c:588-600 | the name comparison is equality of lower-case names, for names without NUL |
| `ResolverCache.ResponseCache.Find` | pjproject/pjlib-util/src/pjlib-util/resolver.c:949-1022 | a fresh entry is handed to a new reader with its count raised; an expired one leaves the table and is freed when unused |
| `ResolverCache.ResponseCache.Done` | pjproject/pjlib-util/src/pjlib-util/resolver.c:990-1000 | after the callback the count falls and an unused entry is freed |
| `ResolverCache.ResponseCache.Put` | pjproject/pjlib-util/src/pjlib-util/resolver.c:1555-1613 | an entry nobody reads is reset in place with its count, else a new one is allocated |
| `ResolverCache.ResponseCache.Update` | pjproject/pjlib-util/src/pjlib-util/resolver.c:1507-1614 | the whole update as `Store`, keeping every reference count right |
| `ResolverCache.ComputeTtl` | pjproject/pjlib-util/src/pjlib-util/resolver.c:1530-1553 | the TTL is the least of the answers, 60 s for failed or empty ones, at most the configured maximum |
| `ResolverCache.MemoryIsReferenceCounted` | pjproject/pjlib-util/src/pjlib-util/resolver.c:884-906 | in every reachable state an entry is in memory if and only if the table or a callback uses it, and its count is the number of uses |
| `ResolverCache.HeldPacketIsStable` | pjproject/pjlib-util/src/pjlib-util/resolver.c:966-1000 | whatever other threads do, the packet a callback was handed stays in memory and unchanged until it returns |
| `ResolverCache.StoreContents` | pjproject/pjlib-util/src/pjlib-util/resolver.c:1507-1614 | counts, resets and reallocations refine a plain map update |
| `ResolverCache.HitIsLastStore` | pjproject/pjlib-util/src/pjlib-util/resolver.c:949-1000 | in every run a hit hands out the copy made by the last store under that key, before its expiry |
| `ResolverCache.HitExactly` | pjproject/pjlib-util/src/pjlib-util/resolver.c:949-1000 | with times that do not go back, a look-up hits if and only if the last store under its key was kept and its time has not run out |
| `ResolverCache.HitWhileInTime` | pjproject/pjlib-util/src/pjlib-util/resolver.c:1530-1606 | the same in seconds: the last store under the key is served while less than the maximum and less than every TTL of its answers has passed, or less than 60 s if it failed or had no answers; without expiry, for good |
| `ResolverCache.NoStoreNoHit` | pjproject/pjlib-util/src/pjlib-util/resolver.c:949-956 | without a store under its key a look-up never hits |
| `ResolverCache.EntryIsReused` | pjproject/pjlib-util/src/pjlib-util/resolver.c:1566-1598 | a packet takes the entry of the one it replaces if and only if nobody reads that one |
| `ResolverCache.HitServesLastAnswer` | pjproject/pjlib-util/src/pjlib-util/resolver.c:949-1022 | the same in the application's terms: questions and answers of the last store up to case, only before store time + min(maximum, least TTL or 60 s) |
| `ResolverService.CachedCallbackIsRight` | pjproject/pjlib-util/src/pjlib-util/resolver.c:966-1000 | in every run of queries and cache together, a callback from the cache is handed a packet in memory and told the status of that packet |
| `ResolverService.ServedExactly` | pjproject/pjlib-util/src/pjlib-util/resolver.c:949-1022 | a request is answered from the cache, with the status of the last packet stored under its key, if and only if that packet was kept and its time has not run out |
| `ResolverService.OneStatusForAll` | pjproject/pjlib-util/src/pjlib-util/resolver.c:1787-1854 | after an answer that is not truncated, everyone who waited and was not cancelled is told its status, and so is everyone who asks again within its TTLs and the maximum, or within 60 s of a failed or empty answer, before another is stored |
| `ResolverService.NotStored` | pjproject/pjlib-util/src/pjlib-util/resolver.c:1836-1840 | time-outs and truncated answers leave the cache alone |
| `ResolverService.FlagBits` | pjproject/pjlib-util/include/pjlib-util/dns.h:166-175 | which bits of the flags are the response code and the truncation flag |
| `DnsCopy.PacketDup` | pjproject/pjlib-util/src/pjlib-util/dns.c:588-737 | the copying loops with their shared name table |
| `DnsCopy.DupKeepsPacket` | pjproject/pjlib-util/src/pjlib-util/dns.c:588-737 | a copy keeps header, questions and answers, names up to case, whatever names are shared |
| `DnsCopy.OneSpelling` | pjproject/pjlib-util/src/pjlib-util/dns.c:588-620 | names that are the same up to case get one spelling, that of the first, if it is among the first sixteen |
| `DnsName.GetNameLen` | pjproject/pjlib-util/src/pjlib-util/dns.c:122-196 | the first pass ends on any bytes, pointer cycles included, and succeeds and measures exactly as `ReadName` |
| `DnsName.GetName` | pjproject/pjlib-util/src/pjlib-util/dns.c:200-264 | the second pass succeeds on the same inputs and appends exactly that name |
| `DnsName.ReadPrinted` | pjproject/pjlib-util/src/pjlib-util/dns.c:122-264 | reading back a printed name gives it, and its size, if and only if it has no empty label, no trailing dot and no label of 192 bytes or more |
| `DnsName.TrailingDotIsLost` | pjproject/pjlib-util/src/pjlib-util/dns.c:122-264 | the name "a." does not read back |
| `DnsParser.TakeName` | pjproject/pjlib-util/src/pjlib-util/dns.c:276-289 | both passes together; the first measures exactly the bytes that the second copies |
| `DnsParser.TakeQuery` | pjproject/pjlib-util/src/pjlib-util/dns.c:268-309 | one question, with all error results |
| `DnsParser.TakeRR` | pjproject/pjlib-util/src/pjlib-util/dns.c:313-455 | one record as `ParseRR`, with all error results |
| `DnsParser.TakePacket` | pjproject/pjlib-util/src/pjlib-util/dns.c:461-581 | the whole parse as `ParsePacket` |
| `DnsParser.ParseQuery` | pjproject/pjlib-util/src/pjlib-util/dns.c:268-309 | no question moves the cursor past the end of the packet |
| `DnsParser.ParseRR` | pjproject/pjlib-util/src/pjlib-util/dns.c:313-455 | no record moves the cursor past the end of the packet |
| `DnsReading.ReadNameExactly` | pjproject/pjlib-util/src/pjlib-util/dns.c:122-264 | on any bytes, a name is read if and only if it is spelled there by labels and at most five pointers, and it is the name so spelled |
| `DnsReading.TooManyPointers` | pjproject/pjlib-util/src/pjlib-util/dns.c:129-132 | a name spelled with more pointers is refused |
| `DnsReading.QuestionExactly` | pjproject/pjlib-util/src/pjlib-util/dns.c:268-309 | a question is read if and only if it stands there |
| `DnsReading.RecordExactly` | pjproject/pjlib-util/src/pjlib-util/dns.c:313-455 | a record is read if and only if it stands there: name, fields, and data by its type; other types are kept as they stand and skipped whole |
| `DnsReading.RawRecordReads` | pjproject/pjlib-util/src/pjlib-util/dns.c:446-450 | a record of a type that is not understood, byte by byte |
| `DnsReading.PrintedIsRecord` | pjproject/pjlib-util/src/pjlib-util/dns_server.c:283-378 | a printed record whose names survive is such a record, so printed and other records may stand in any order |
| `DnsReading.RecordsExactly` | pjproject/pjlib-util/src/pjlib-util/dns.c:530-575 | a section is read if and only if its records stand one after the other |
| `DnsReading.PacketExactly` | pjproject/pjlib-util/src/pjlib-util/dns.c:461-581 | a packet is accepted if and only if its header and four sections stand there, and read as they say |
| `DnsReading.RecordRefused` | pjproject/pjlib-util/src/pjlib-util/dns.c:313-455 | which error a record is refused with, and when |
| `DnsReading.QuestionRefused` | pjproject/pjlib-util/src/pjlib-util/dns.c:268-309 | likewise for a question |
| `DnsReading.FirstBadRecord` | pjproject/pjlib-util/src/pjlib-util/dns.c:540-575 | a section fails as its first bad record does |
| `DnsReading.HeaderRefused` | pjproject/pjlib-util/src/pjlib-util/dns.c:471-500 | which errors come from the size and the counts, and when |
| `DnsPrinter.Printer.PutName` | pjproject/pjlib-util/src/pjlib-util/dns_server.c:222-281 | writes a pointer or the labels into the buffer and keeps the table true of the bytes printed so far |
| `DnsPrinter.Printer.PutFields` | pjproject/pjlib-util/src/pjlib-util/dns_server.c:336-370 | data that ends in a name, with the rdata length written in front afterwards |
| `DnsPrinter.Printer.PutRR` | pjproject/pjlib-util/src/pjlib-util/dns_server.c:283-378 | one record, or failure for lack of room or an unsupported type |
| `DnsPrinter.Print` | pjproject/pjlib-util/src/pjlib-util/dns_server.c:380-458 | the buffer holds exactly the bytes of `PrintPacket`; fails exactly when it does |
| `DnsRoundTrip.NameBack` | pjproject/pjlib-util/src/pjlib-util/dns_server.c:222-281 | a printed name, compressed or not, reads back if and only if it survives the table |
| `DnsRoundTrip.RRBack` | pjproject/pjlib-util/src/pjlib-util/dns_server.c:283-378 | a printed record parses to itself if and only if its names survive |
| `DnsRoundTrip.RoundTrip` | pjproject/pjlib-util/src/pjlib-util/dns_server.c:380-458 | a printed packet parses to itself, using all bytes and up to rdlength, if and only if every section has at most 256 items and every name survives |
| `DnsRoundTrip.HostPacketComesBack` | pjproject/pjlib-util/src/pjlib-util/dns_server.c:222-458 | packets of names with labels of 1 to 44 letters, digits, `-` and `_` always come back |
| `DnsRoundTrip.LongLabelsCollide` | pjproject/pjlib-util/src/pjlib-util/dns_server.c:231-247 | the bound 44 is sharp: a 45-byte label makes a well-formed name be compressed to another one |
| `DnsRoundTrip.CollidingPacketIsLost` | pjproject/pjlib-util/src/pjlib-util/dns_server.c:231-247 | a packet with two questions that prints and does not come back |
| `DnsRoom.PrintsExactly` | pjproject/pjlib-util/src/pjlib-util/dns_server.c:380-458 | a packet prints at exactly the sizes from its bytes less four per question, plus a slack, and to the same bytes at all of them |
| `DnsRoom.OverrunsExactly` | pjproject/pjlib-util/src/pjlib-util/dns_server.c:380-458 | the sizes at which it is printed beyond the size given; there are such sizes if and only if it has two questions, or one and a record |
| `DnsRoom.PrintableExactly` | pjproject/pjlib-util/src/pjlib-util/dns_server.c:306-375 | a packet prints, if there is room, if and only if all its records are of the types A, AAAA, CNAME, NS, PTR and SRV |
| `DnsRoom.RootQuestionsOverrun` | pjproject/pjlib-util/src/pjlib-util/dns_server.c:400-422 | two questions for the root take 23 bytes and are printed at size 19 |
| `DnsQuery.MakeQuery` | pjproject/pjlib-util/src/pjlib-util/dns.c:55-111 | the query packet byte by byte, and when each error is returned |
| `DnsQuery.QueryLength` | pjproject/pjlib-util/src/pjlib-util/dns.c:67-111 | a query takes one byte more than the size checked for if its name is empty or ends in a dot, and two otherwise |
| `DnsQuery.ShortBufferIsOverrun` | pjproject/pjlib-util/src/pjlib-util/dns.c:67-111 | a query for "a" passes the check with 17 bytes and takes 19 |
| `DnsQuery.QueryRoundTrip` | pjproject/pjlib-util/src/pjlib-util/dns.c:55-111 | a query packet parses to its request if and only if the name is well formed |
| `DnsQuery.TrailingDotQueryIsLost` | pjproject/pjlib-util/src/pjlib-util/dns.c:55-111 | a query for "a." does not parse to its request |
| `Nameservers.ServerTable.Best` | pjproject/pjlib-util/src/pjlib-util/resolver.c:1405-1420 | the earliest active server with the least response time |
| `Nameservers.ServerTable.Select` | pjproject/pjlib-util/src/pjlib-util/resolver.c:1386-1443 | for any size of the list: no duplicates, and only servers that are PROBING afterwards or the best on entry; all of these if the list was not filled; so an unexpired BAD server is never queried |
| `Nameservers.ServerTable.Report` | pjproject/pjlib-util/src/pjlib-util/resolver.c:1447-1500 | the first server with the address becomes active or bad with the right expiry, its response time is taken if the id is the one it was sent; the others stay |
| `Nameservers.BadIsLeftAlone` | pjproject/pjlib-util/src/pjlib-util/resolver.c:1347-1443 | in every run a bad server stays bad and is not queried until its state expires, whatever is heard from other addresses |
| `Nameservers.AnswerDecides` | pjproject/pjlib-util/src/pjlib-util/resolver.c:1347-1500 | in every run an answer decides for good_ns_ttl or bad_ns_ttl seconds whether its server is active or bad, and with a matching id its response time; then the server is probed |
| `Nameservers.ProbeDecides` | pjproject/pjlib-util/src/pjlib-util/resolver.c:1347-1443 | a probe lasts (qretr_count + 2) times qretr_delay in whole seconds; the server is queried at every look until then, and given up after |
| `AResponse.ParseAResponse` | pjproject/pjlib-util/src/pjlib-util/resolver.c:1110-1217 | the search loop computes `ParseA`, with all error results |
| `AResponse.FoundExactly` | pjproject/pjlib-util/src/pjlib-util/resolver.c:1110-1217 | success if and only if a chain of at most 19 hops, each through the first answer of its name, leads to an A record and the names fit in 128 bytes; the record has the first name along the chain that is not empty, and the addresses of the first 8 A records of the final name, by their places |
| `AResponse.FailsExactly` | pjproject/pjlib-util/src/pjlib-util/resolver.c:1124-1215 | which error is returned, and when, for every packet |
| `AResponse.CyclesAreRefused` | pjproject/pjlib-util/src/pjlib-util/resolver.c:1162-1184 | every cyclic chain yields PJLIB_UTIL_EDNSINANSWER |
| `AResponse.ParsedPacketTyped` | pjproject/pjlib-util/src/pjlib-util/dns.c:313-455 | whatever the parser returns may be given to the reader |
| `Getopt.RotateSegments` | pjproject/pjlib-util/src/pjlib-util/getopt.c:200-255 | the swapping loop is exactly a rotation of the two adjacent segments, and touches nothing else |
| `Getopt.FindLong` | pjproject/pjlib-util/src/pjlib-util/getopt.c:480-505 | the first exact match, else the only option abbreviated, else ambiguous or none |
| `Getopt.Scanner.Advance` | pjproject/pjlib-util/src/pjlib-util/getopt.c:373-400 | options since the skipped non-options are moved in front of them, then more are skipped |
| `Getopt.Scanner.Long` | pjproject/pjlib-util/src/pjlib-util/getopt.c:464-565 | a long option with all its error results |
| `Getopt.Scanner.Short` | pjproject/pjlib-util/src/pjlib-util/getopt.c:567-728 | one short option of a cluster, with its argument |
| `Getopt.Scanner.Next` | pjproject/pjlib-util/src/pjlib-util/getopt.c:352-729 | one call reports the next event of the scan and makes progress, or ends with the options in front; `argv` is always a permutation of the original |
| `Getopt.Run` | pjproject/pjlib-util/src/pjlib-util/getopt.c:352-729 | the whole run: reports equal the left-to-right scan, and `argv` is a permutation of what it was: options, their arguments and `--` in order, then all other arguments in order from `pj_optind` |
| `GetoptLines.LineIsScanned` | pjproject/pjlib-util/src/pjlib-util/getopt.c:352-729 | what a scan reports and takes for options on a line of words, clusters, long options and their arguments: by the colons after a character in optstring and by the names of the long options, errors included |
| `GetoptLines.EveryLine` | pjproject/pjlib-util/src/pjlib-util/getopt.c:352-729 | every command line is such a line |
| `GetoptLines.ItemGoes` | pjproject/pjlib-util/src/pjlib-util/getopt.c:403-728 | the same for one item with anything after it |
| `JsonString.FillChunk` | pjproject/pjlib-util/src/pjlib-util/json.c:406-473 | the 64-byte buffer holds whole escapes of the next characters, at least one |
| `JsonString.FindEndQuote` | pjproject/pjlib-util/src/pjlib-util/scanner.c:393-428 | counting backslashes backwards finds the quote that a left-to-right reader of escapes finds, on any bytes |
| `JsonString.EndQuoteEscape` | pjproject/pjlib-util/src/pjlib-util/scanner.c:364-441 | the quote after an escaped string is found as its end |
| `JsonString.UnescapeToken` | pjproject/pjlib-util/src/pjlib-util/json.c:128-198 | the unescaping loop as a function, with its error results |
| `JsonString.UnescapeEscape` | pjproject/pjlib-util/src/pjlib-util/json.c:406-478 | unescaping undoes escaping for every byte string |
| `JsonReader.Scanner.SkipWhitespace` | pjproject/pjlib-util/src/pjlib-util/scanner.c:141-200 | skips exactly the blanks and newlines at the cursor |
| `JsonReader.Parser.ParseQuotedString` | pjproject/pjlib-util/src/pjlib-util/json.c:128-198 | the unescaped text between the quotes, with or without the short cut |
| `JsonReader.Parser.ParseElem` | pjproject/pjlib-util/src/pjlib-util/json.c:200-289 | the element at the cursor as `ReadElem`, failures included |
| `JsonReader.Parser.ParseChildren` | pjproject/pjlib-util/src/pjlib-util/json.c:100-125 | the children up to the closing bracket |
| `JsonReader.ParseDocument` | pjproject/pjlib-util/src/pjlib-util/json.c:297-341 | the whole parse, and how many bytes were left |
| `JsonGrammar.DocumentExactly` | pjproject/pjlib-util/src/pjlib-util/json.c:100-341 | a text is accepted if and only if it is a document of the grammar, with any white space, and it is read as what it means; in particular a tab is white space, commas are optional, a string without a name is not unescaped |
| `JsonGrammar.DocumentReads` | pjproject/pjlib-util/src/pjlib-util/json.c:200-289 | the direction from a written document to what is read |
| `JsonGrammar.UnitsRead` | pjproject/pjlib-util/src/pjlib-util/json.c:128-198 | a string of plain characters, escape letters and codes in upper or lower case is read as what they stand for |
| `JsonGrammar.OtherLetterRefused` | pjproject/pjlib-util/src/pjlib-util/json.c:185-187 | any other letter after a backslash is refused |
| `JsonGrammar.EscapesAreUnits` | pjproject/pjlib-util/src/pjlib-util/json.c:406-478 | which form the writer chooses for a character |
| `JsonWriter.Writer.Emit` | pjproject/pjlib-util/src/pjlib-util/json.c:349-362 | writes a chunk if there is room for it and two bytes more |
| `JsonWriter.Writer.WriteEscaped` | pjproject/pjlib-util/src/pjlib-util/json.c:406-478 | the chunks together are the per-byte escapes, whatever the chunk boundaries |
| `JsonWriter.Writer.PutElem` | pjproject/pjlib-util/src/pjlib-util/json.c:534-601 | the text of an element at the current indent |
| `JsonWriter.Writer.PutChildren` | pjproject/pjlib-util/src/pjlib-util/json.c:480-532 | the text of a list of children |
| `JsonWriter.WriteDocument` | pjproject/pjlib-util/src/pjlib-util/json.c:364-384 | succeeds if and only if text, final zero and one byte more fit, and then the buffer holds the text |
| `JsonWriter.DepthFits` | pjproject/pjlib-util/src/pjlib-util/json.c:506-527 | the indents fit the indent buffer if and only if members are nested at most 33 levels deep |
| `JsonWriter.DeepTreeOverflows` | pjproject/pjlib-util/src/pjlib-util/json.c:506-527 | 33 nested objects fit and 34 overflow |
| `JsonWriter.ChildrenAreSeparated` | pjproject/pjlib-util/src/pjlib-util/json.c:480-532 | unnamed children on one line with a comma and a space between them, named ones on lines of their own |
| `JsonWriter.MembersAreIndented` | pjproject/pjlib-util/src/pjlib-util/json.c:506-530 | members stand three columns further in, and the closing bracket where the line of the opening one begins |
| `JsonWriter.ValuesAreAligned` | pjproject/pjlib-util/src/pjlib-util/json.c:534-560 | with names of up to 20 characters all values stand in one column |
| `JsonRoundTrip.StringBack` | pjproject/pjlib-util/src/pjlib-util/json.c:200-289 | a written string value of a member is read back, for every byte string |
| `JsonRoundTrip.NameBack` | pjproject/pjlib-util/src/pjlib-util/json.c:210-222 | a written name is read back if and only if it is plain |
| `JsonRoundTrip.TreeRoundTrip` | pjproject/pjlib-util/src/pjlib-util/json.c:480-601 | an array or object without numbers comes back if and only if names are plain or missing, strings without a name are plain, and no item of an array has a name; plain is non-empty, without escapes and without a space in front |
| `JsonRoundTrip.SomeTreesAreLost` | pjproject/pjlib-util/src/pjlib-util/json.c:480-601 | an empty string in an array, a named item of an array and a member named with a quote do not come back |
| `Telnet.SessOption.SendEnableOption` | pjproject/pjlib-util/src/pjlib-util/cli_telnet.c:479-513 | the state and the command sent, in all six states, leaving the other side's state alone |
| `Telnet.SessOption.ReceiveEnableOption` | pjproject/pjlib-util/src/pjlib-util/cli_telnet.c:532-573 | likewise for WILL and DO received |
| `Telnet.SessOption.ReceiveDisableOption` | pjproject/pjlib-util/src/pjlib-util/cli_telnet.c:580-617 | likewise for WONT and DONT received |
| `Telnet.RequestIsRemembered` | pjproject/pjlib-util/src/pjlib-util/cli_telnet.c:497-510 | a request made while a disable is awaited is remembered, and taken back by a second |
| `Telnet.UndoingIsRemembered` | pjproject/pjlib-util/src/pjlib-util/cli_telnet.c:555-610 | an enable that is to be undone is undone when the answer comes |
| `Telnet.QuietEndsAgree` | pjproject/pjlib-util/src/pjlib-util/cli_telnet.c:479-637 | in every run, requests at any time included, only DISABLE, EXPECT_ENABLE and ENABLE occur, and when nothing is under way both ends are ENABLE or both DISABLE |
| `Telnet.MessagesAreBounded` | pjproject/pjlib-util/src/pjlib-util/cli_telnet.c:479-637 | if no end asks while it waits, at most two messages are sent per request |
| `Telnet.ExchangeSettles` | pjproject/pjlib-util/src/pjlib-util/cli_telnet.c:479-637 | and then without a new request at most four messages arrive |
| `Telnet.ImpatienceCostsMessages` | pjproject/pjlib-util/src/pjlib-util/cli_telnet.c:497-499 | that bound needs patience: with a request while waiting, three requests cause seven messages, although settings do not change |
| `Telnet.ExchangeNeedNotSettle` | pjproject/pjlib-util/src/pjlib-util/cli_telnet.c:479-637 | with a request while waiting and settings that change, four requests cause any number of messages |
| `Telnet.SteadyExchangeSettles` | pjproject/pjlib-util/src/pjlib-util/cli_telnet.c:479-637 | if settings do not change, then without a new request at most 4 (n + 1) messages arrive, n being under way |
| `Telnet.SteadyMessagesAreBounded` | pjproject/pjlib-util/src/pjlib-util/cli_telnet.c:479-637 | if settings do not change, at most four messages are sent per request, whenever requests are made |
| `History.Session.InsertHistory` | pjproject/pjlib-util/src/pjlib-util/cli_telnet.c:382-419 | trims, searches, and moves or inserts at the front, dropping the oldest of sixteen |
| `History.TrimIs` | pjproject/pjlib-util/src/pjlib-util/cli_telnet.c:391-392 | exactly the white space at both ends goes |
| `History.ReplayHolds` | pjproject/pjlib-util/src/pjlib-util/cli_telnet.c:382-419 | after any lines the list holds different non-blank commands ordered by last use, and any command missing was used before all of them and then the list is full |
| `Sha1.Context.Update` | pjproject/pjlib-util/src/pjlib-util/sha1.c:205-227 | the buffered transform equals folding it over the whole message, and the count grows as the code computes it |
| `Sha1.Context.Final` | pjproject/pjlib-util/src/pjlib-util/sha1.c:231-262 | padding byte by byte gives the fold over the padded message |
| `Sha1.PaddedMessage` | pjproject/pjlib-util/src/pjlib-util/sha1.c:231-250 | the padding of section 4 of RFC 3174 |
| `Sha1.CountIsBigEndian` | pjproject/pjlib-util/src/pjlib-util/sha1.c:237-241 | the count of bits, most significant byte first |
| `Sha1.DigestIsBigEndian` | pjproject/pjlib-util/src/pjlib-util/sha1.c:246-250 | the digest holds the words of the state, most significant byte first |
| `Sha1.Hash` | pjproject/pjlib-util/src/pjlib-util/sha1.c:205-262 | for every cut of a message into pieces the result is the digest with the bit count as the code keeps it, whatever the transform leaves in its buffer; it is the SHA-1 digest for pieces under 2^29 bytes |
| `Sha1.ShortPiecesCount` | pjproject/pjlib-util/src/pjlib-util/sha1.c:210-213 | after pieces under 2^29 bytes the high word of the count is right |
| `Sha1.CountIsRight` | pjproject/pjlib-util/src/pjlib-util/sha1.c:210-213 | the count is right if and only if the piece is under 2^29 bytes, or under 2^32 bytes and the low words carry |
| `Sha1.LongFirstPieceMiscounts` | pjproject/pjlib-util/src/pjlib-util/sha1.c:210-213 | a first piece of 2^29 bytes is miscounted |
| `Md5.Context.Update` | pjproject/pjlib-util/src/pjlib-util/md5.c:72-115 | buffered transform and count for any piece, equal to folding over the whole message |
| `Md5.Context.Final` | pjproject/pjlib-util/src/pjlib-util/md5.c:121-161 | padding written into the buffer gives the digest of the padded message, and the context is wiped |
| `Md5.PaddedMessage` | pjproject/pjlib-util/src/pjlib-util/md5.c:121-155 | the padding of sections 3.1 and 3.2 of RFC 1321, the count with its least significant byte first |
| `Md5.DigestIsLittleEndian` | pjproject/pjlib-util/src/pjlib-util/md5.c:155-160 | the digest holds the words of the state, least significant byte first |
| `Md5.Hash` | pjproject/pjlib-util/src/pjlib-util/md5.c:72-161 | for every cut of a message into pieces the result is its digest |
| `HmacPads.FillPads` | pjproject/pjlib-util/src/pjlib-util/hmac_sha1.c:46-57 | both pads are the zero-extended key combined with their byte |
| `HmacPads.PadsAre` | pjproject/pjlib-util/src/pjlib-util/hmac_sha1.c:46-57 | each byte of the pads: the key, or zero after its end, combined with 0x36 and 0x5c |
| `HmacSha1.Context.Final` | pjproject/pjlib-util/src/pjlib-util/hmac_sha1.c:70-82 | the outer digest over the inner one, with the bit count as the code keeps it |
| `HmacSha1.Authenticate` | pjproject/pjlib-util/src/pjlib-util/hmac_sha1.c:23-82 | for every key and every cut of the text, H(K xor opad, H(K xor ipad, text)) with the bit counts as the code keeps them; the value of RFC 2104 for a key and pieces under 2^29 bytes |
| `HmacMd5.Authenticate` | pjproject/pjlib-util/src/pjlib-util/hmac_md5.c:23-84 | the same over MD5, for any key |
| `HmacMd5.KeyIs` | pjproject/pjlib-util/src/pjlib-util/hmac_md5.c:34-41 | only keys longer than 64 bytes are replaced by their digest |
| `Crc32.TabIs` | pjproject/pjlib-util/src/pjlib-util/crc32.c:26-79 | each of the 256 table entries is what eight single-bit steps make of its index |
| `Crc32.CheckValue` | pjproject/pjlib-util/src/pjlib-util-test/encryption.c:441-444 | the checksum of the digits 1 to 9 is 0xCBF43926 |
| `Crc32.FourSteps` | pjproject/pjlib-util/src/pjlib-util/crc32.c:165-173 | four table steps on a word are four byte steps |
| `Crc32.TableContext.Update` | pjproject/pjlib-util/src/pjlib-util/crc32.c:155-182 | bytes to alignment, words, rest: equal to the bit-by-bit definition for every start address |
| `Crc32.BitContext.Update` | pjproject/pjlib-util/src/pjlib-util/crc32.c:198-222 | the bit-by-bit form |
| `Crc32.TableCrc` | pjproject/pjlib-util/src/pjlib-util/crc32.c:150-187 | for every cut of the input and every alignment the table form gives the CRC-32 of the whole input |
| `Crc32.BitCrc` | pjproject/pjlib-util/src/pjlib-util/crc32.c:192-228 | and so does the bit-by-bit form |
| `Base64.EncodeInto` | pjproject/pjlib-util/src/pjlib-util/base64.c:91-132 | the encoding in either alphabet; too small if and only if the macro says so |
| `Base64.AlphabetIsTable` | pjproject/pjlib-util/src/pjlib-util/base64.c:26-46 | the alphabets are tables 1 and 2 of RFC 4648 |
| `Base64.ValueExactly` | pjproject/pjlib-util/src/pjlib-util/base64.c:48-66 | exactly the characters of the alphabet have a value, their place in it |
| `Base64.SameBits` | pjproject/pjlib-util/src/pjlib-util/base64.c:68-88 | three bytes and their four digits are the same 24 bits |
| `Base64.EncodedInGroups` | pjproject/pjlib-util/src/pjlib-util/base64.c:91-132 | the encoding consists of groups of four, the last filled up with =, which stands nowhere else |
| `Base64.DecodeInto` | pjproject/pjlib-util/src/pjlib-util/base64.c:134-181 | the decoding with its skipping loops; too small if and only if the macro says so |
| `Base64.DecodeEncode` | pjproject/pjlib-util/src/pjlib-util/base64.c:68-181 | decoding undoes encoding, in both alphabets |
| `Base64.EncodeFits` | pjproject/pjlib-util/include/pjlib-util/base64.h:42-42 | the encoding fits the size macro |
| `Base64.DecodeFits` | pjproject/pjlib-util/include/pjlib-util/base64.h:48-48 | the decoding fits the size macro |
| `Base64.IgnoredExactly` | pjproject/pjlib-util/src/pjlib-util/base64.c:147-181 | characters outside the alphabet are ignored if and only if the last character, padding aside, is inside or the number of those inside is a multiple of four |
| `Base64.StrayEndCounts` | pjproject/pjlib-util/src/pjlib-util/base64.c:147-181 | "A!" decodes to a byte and "A" to none |

## Left out

- Sockets, the ioqueue, the timer heap, pools, hash tables and group locks: they appear as the outcome of a transmission, timer events, values and atomic steps.
- Cancelling a timer is atomic with the step that does it, and `pj_assert` does nothing, as in a release build.
- Resolver.Resolver.StartQuery: takes the outcome of the transmission as an input, because sockets are not modelled.
- Resolver.Resolver.OnTimeout: takes the outcome of the retransmission as an input, and a timer that fires is one that is still armed.
- Resolver.Resolver.CancelQuery: keeps the invariant unless it notifies a request that was told before, because then it is told twice (CancelTellsTwiceExactly).
- ResolverCache.MemoryIsReferenceCounted: does not cover destroying the resolver, because that frees entries whatever their count.
- ResolverQueries.EveryNodeInOnePlace: speaks of runs in which no id laps a pending query, because otherwise the tables disagree (AgreementNeedsFreshId); RunExactly says which these are.
- Callbacks that change the packet they are handed before it is stored, and adding entries with a name that is too long.
- DnsName.GetName: builds the name as a value instead of writing into the caller's allocation, because pools are not modelled; that the length fits is part of TakeName.
- DnsPrinter.Printer.PutName: requires two bytes of room, because the code writes a pointer without looking at the size left.
- DnsPrinter.Printer.PutRR: requires two bytes of room for the same reason.
- DnsPrinter.Print: requires room for the four bytes per question and the pointer that the code does not charge to the size (OverrunsExactly).
- DnsQuery.MakeQuery: requires a buffer that holds what is written, because the size checked for is one or two bytes short of it (QueryLength).
- DnsRoundTrip.RoundTrip: covers class IN and at most 16384 bytes, because offsets in pointers have 14 bits; the rdlength field is not compared, because the printer computes it.
- pj_dns_parse_addr_response: the same search with AAAA records beside A records.
- AResponse.ParseAResponse: requires data of the kind the type says, because the union is modelled as a datatype (ParsedPacketTyped).
- Getopt.Run: models the PERMUTE order only, and requires an optstring without a leading '+' or '-' and without "W;"; long_only and calls after the first -1 are not modelled.
- JSON numbers: a number keeps its token when read and cannot be written.
- JsonReader.Scanner.SkipWhitespace: does not count lines.
- JsonReader.ParseDocument: does not give the line, column and character of an error.
- JsonWriter.WriteDocument: requires at most 33 nested levels of members, because deeper indents exceed the indent buffer.
- Telnet.MessagesAreBounded: requires that no end asks while it waits, because otherwise the bound fails (ImpatienceCostsMessages, ExchangeNeedNotSettle).
- History.Session.InsertHistory: requires lines that fit the command buffer, as its caller provides.
- The interiors of the MD5 and SHA-1 block transforms: they are parameters; that of SHA-1 may overwrite its block in any way.
- Sha1.Context.Update: counts lengths below 2^61 bytes, for which the shift in `size_t` loses nothing.
- Sha1.Hash: is the SHA-1 digest only for pieces under 2^29 bytes, because longer ones are miscounted (CountIsRight).
- HmacSha1.Authenticate: is the value of RFC 2104 only for a key and pieces under 2^29 bytes, for the same reason.
- Overflow of `int` sizes for inputs of gigabytes (packet sizes, the Base64 size macros): sizes are unbounded numbers.
- Big-endian builds, the HTTP client, cli.c, cli_console.c, the rest of the telnet front end, pcap.c, dns_dump.c, errno.c, XML, STUN and SRV resolution.
