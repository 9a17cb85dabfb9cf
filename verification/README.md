# qcontent: what its core computes

A Dafny model of the parts of qcontent that scan, count and decide, with proofs of what they
promise. `dafny verify dfyconfig.toml` checks everything.

- **HTTP scanners** (`Scanner`, `Chunked*`, `Response*`, `HttpResponse`, `HeaderNames`). The two table-driven
  machines of the crawler, with their tables as data, the bisection over a row, the counting
  condition with its side effect and the jump action. Decoding undoes chunked encoding and
  response printing; where it does not, the exact condition is proved.
- **Edit distance** (`EditScripts`, `EditTables`). Two dynamic-programming tables, one of them
  flat and walked by a pointer, against the recursive distance, which is the least cost of an
  edit script and a metric.
- **Hub queues** (`HubMonitor`, `HubUnsignalled`, `HubServer`). The monitor as interleaved thread steps - acquire,
  check, wait, signalled, resumed, timed out - with invariants over every run, and exactly when a
  call that signals nobody is harmless; and the server with its queues as objects.
- **Crawler flow control** (`Crawler`). Fetch loop, callbacks and push calls that start each
  other again, as methods that really nest, with one invariant over all of them.
- **Near-duplicate filter** (`HashBase`, `DedupSpec`, `DedupIndex`, `DedupLaws`, `SentenceLaws`).
  Sentence splitter, hash, bitmap and the 85% rule, what they mean in terms of their own, and what
  follows over whole sequences of submissions.
- **Page tree and content extraction** (`VdomNode`, `RepeatSig`, `TextBlocks`, `BlockList`,
  `BlockExpansion`, `ContentMerge`, `ContentConfidence`, `ContentExtractor`, and the laws of what
  they measure, merge and rate). The node tree with
  its caches, the signature that a reader can undo, cutting a page into blocks, growing the
  content from good blocks in both directions and merging it.
- **Language guesser** (`Crc32`, `LangMap`, `Correlation`, `LangLaws`). The table-driven CRC against bitwise
  division, the one-pass n-gram histogram against counting substrings, the correlation.

Code that works by changing state is a method or a class here, proved against a function of its
input; the laws are lemmas about that function. Where the code departs from what one would expect
of it, the code is kept and the departure is stated: a chunk of 2^31-1 bytes, a header value of one
byte, a failed chunked decoding that is only logged, `clear_queue` and `set_queue_capacity` that
signal nobody, a separator in a tag name. A noise flag survives from page to page: it is proved to
change nothing in the content.

Three kinds of foreign code are parameters: functions (`inflate`, the noise test, the word and
punctuation tests, `sqrt`), lists of outcomes (timed waits, answers of the URL queue, events of
the loop) and arbitrary choices (hub replies, resolver results, the title block).

## Model

| member | source | states |
|---|---|---|
| Scanner.Lookup | qcrawler/qcrawler_http_parse.cpp:381-427 | bisection over the single keys, then over the ranges, finds the one move a sorted row offers for the key |
| ChunkedBody.RowsSorted | qcrawler/qcrawler_http_parse.cpp:71-210 | every row of the chunked table that a run can reach is in the order bisection needs |
| ChunkedBody.StepSizeStart | qcrawler/qcrawler_http_parse.cpp:442-466 | a size line starts afresh: both counters are reset before the first digit is added |
| ChunkedBody.StepSizeMore | qcrawler/qcrawler_http_parse.cpp:442-456 | a further digit multiplies the size by sixteen, with 32-bit wrap-around, and adds its value |
| ChunkedBody.StepData | qcrawler/qcrawler_http_parse.cpp:364-373 | inside data the counting condition decides each byte: taken while the count is short of the size, closing CR otherwise; the counter is incremented either way |
| ChunkedBody.StepAfterLastCr | qcrawler/qcrawler_http_parse.cpp:476-483 | after a CR that may be data, the jump back to data is taken exactly when the chunk is still short |
| ChunkedBody.StepQuiet | qcrawler/qcrawler_http_parse.cpp:71-210 | in the states that run no action each byte makes the move of an explicit grammar of chunk extensions, trailer lines and line ends |
| ChunkedRuns.StepKeepsUnambiguous | qcrawler/qcrawler_http_parse.cpp:364-484 | each byte keeps: no two-way state, state 14 has a full count, states 2 to 4 and 54 to 59 have size zero, counters fit an int |
| ChunkedRuns.TwoWayStatesUnreachable | qcrawler/qcrawler_http_parse.cpp:330-497 | over every input, accepted or not, the scanner never enters a state in which a byte can be read in two ways |
| ChunkedRuns.Advance | qcrawler/qcrawler_http_parse.cpp:347-492 | one round of the loop is one step: look up, counting condition, move, actions |
| ChunkedRuns.Perform | qcrawler/qcrawler_http_parse.cpp:436-486 | the action list of a move, run in order, with the early exit of the jump action |
| ChunkedRuns.HttpChunkedParse | qcrawler/qcrawler_http_parse.cpp:318-506 | the loop returns whether the run ends in a final state and the bytes the run decoded; what that is for the bodies a server may send is said by the round trip |
| ChunkedRuns.RunConcat | qcrawler/qcrawler_http_parse.cpp:347-492 | reading two pieces one after the other is reading them joined |
| ChunkedRoundTrip.DigitsAreWorthTheirPlace | qcrawler/qcrawler_http_parse.cpp:442-450 | each digit of 0123456789abcdef and of 0123456789ABCDEF is worth its place in that row, and no other byte is a digit |
| ChunkedRoundTrip.ReadSizeLine | qcrawler/qcrawler_http_parse.cpp:442-466 | a size line, in either case, with leading zeros and with extensions, sets the size its digits stand for; only the size zero leads to the end of the body |
| ChunkedRoundTrip.ExtensionNeedsAValue | qcrawler/qcrawler_http_parse.cpp:71-210 | an extension without a value, which the RFC allows, fails |
| ChunkedExtensions.ExtensionsExactly | qcrawler/qcrawler_http_parse.cpp:71-210 | what follows the size on a size line is accepted if and only if it is a list of extensions, each a name and a token of letters and digits or a quoted text |
| ChunkedRoundTrip.ReadChunk | qcrawler/qcrawler_http_parse.cpp:347-492 | one legal chunk, whatever bytes it holds, adds exactly its data and leaves the scanner ready for the next size line |
| ChunkedRoundTrip.RoundTrip | qcrawler/qcrawler_http_parse.cpp:318-506 | decoding undoes every encoding of section 3.6.1 of RFC 2616 with chunks shorter than 2^31-1 bytes, sizes in either case, extensions and a trailer: accepted, and the body is the concatenation of the chunks |
| ChunkedRoundTrip.OverlongChunkSwallowsTheRest | qcrawler/qcrawler_http_parse.cpp:364-373 | a chunk of exactly 2^31-1 bytes wraps the counter on its closing CR: everything after is taken for data and the body is rejected |
| ChunkedRoundTrip.RoundTripExactly | qcrawler/qcrawler_http_parse.cpp:318-506 | below four gigabytes the round trip works if and only if no chunk has exactly 2^31-1 bytes |
| ChunkedRoundTrip.StepKeepsBudget | qcrawler/qcrawler_http_parse.cpp:364-373 | a step keeps the bytes taken since the last size line within the declared size, and the counter equal to them, exactly when it does not wrap the counter on a closing CR |
| ChunkedRoundTrip.NoChunkOverrunsItsSize | qcrawler/qcrawler_http_parse.cpp:330-497 | on every input of any length, well formed or not: no chunk yields more bytes than its size line declares, at any prefix, if and only if the counter never wraps on a closing CR with more input to come |
| ChunkedRoundTrip.OverrunExactlyAfterWrap | qcrawler/qcrawler_http_parse.cpp:330-497 | the same from any point of a scan on |
| ChunkedRoundTrip.SmallerSizesAreNeverOverrun | qcrawler/qcrawler_http_parse.cpp:364-373 | if no size line in force in chunk data declares 2^31-1, no size is overrun, at any length |
| ChunkedRoundTrip.ShortInputsNeverOverrun | qcrawler/qcrawler_http_parse.cpp:364-373 | nor on any input of at most 2^31-1 bytes |
| ChunkedRoundTrip.LargestChunkOverruns | qcrawler/qcrawler_http_parse.cpp:364-373 | a chunk of 2^31-1 bytes does overrun: the LF that should close it is taken for data |
| ResponseTable.TableIsGrammar | qcrawler/qcrawler_http_parse.cpp:510-575 | for every state and byte the response table makes the move of an explicit grammar of status line, header lines and body |
| HttpResponse.Advance | qcrawler/qcrawler_http_parse.cpp:624-732 | one round of the response loop is one step of the specification |
| HttpResponse.Deliver | qcrawler/qcrawler_http_parse.cpp:757-816 | the checks after the scan in their order: final state, length within ten bytes, chunked decoding whose failure is ignored, gzip |
| HttpResponse.HttpParse | qcrawler/qcrawler_http_parse.cpp:587-817 | status, headers, body and verdict are those of the run over the whole input; what that means for a printed response is said by the round trip and by its fields |
| HttpResponse.MarkStaysInside | qcrawler/qcrawler_http_parse.cpp:587-817 | the body mark is set exactly in the body state and points into the input |
| ResponseRoundTrip.ReadStatusLine | qcrawler/qcrawler_http_parse.cpp:510-575 | a printed status line (section 6.1 of RFC 2616) is read back as its status number |
| ResponseRoundTrip.ReadField | qcrawler/qcrawler_http_parse.cpp:510-575 | a printed header line is stored under its lower-cased name without leading spaces, or fails if the value is a single byte |
| ResponseRoundTrip.ReadHead | qcrawler/qcrawler_http_parse.cpp:510-575 | the whole head is read back, later duplicates winning, unless a value is a single byte |
| ResponseRoundTrip.RoundTrip | qcrawler/qcrawler_http_parse.cpp:587-817 | a printed response is accepted if and only if no header value is one byte long, a declared length is within ten of the body's, and gzip inflates; then status, header map and decoded body are returned |
| ResponseRoundTrip.ChunkedResponseRoundTrip | qcrawler/qcrawler_http_parse.cpp:587-817 | with transfer-encoding chunked, the printed response comes back with the chunks' concatenation as its body |
| HeaderNames.LowerAllMeans | qcrawler/qcrawler_http_parse.cpp:696-699 | a header name is stored with its capitals, and nothing else, moved by 32 |
| HeaderNames.SameKeyExactly | qcrawler/qcrawler_http_parse.cpp:696-699 | two header names are stored under one key if and only if they differ at most in letter case |
| HeaderNames.StoredIsNamed | qcrawler/qcrawler_http_parse.cpp:706-716 | the stored value of a name is that of the last field so called in any letter case, without leading spaces; without such a field there is none |
| HeaderNames.AtoiReadsDecimal | qcrawler/qcrawler_http_parse.cpp:762-775 | a declared length is read as the decimal number it spells, after white space and a sign and up to the first other byte; beyond 63 bits it is clamped and cut |
| HeaderNames.FieldsRule | qcrawler/qcrawler_http_parse.cpp:587-817 | acceptance, status, headers and decoded body of a printed response, by the text of its fields alone: content-length, transfer-encoding and content-encoding in any letter case |
| HeaderNames.AnyCaseIsDechunked | qcrawler/qcrawler_http_parse.cpp:785-795 | a field called transfer-encoding in any letter case, saying chunked and not overruled, makes the body come out without its chunked coding |
| EditTables.Levenshtein | qcontentextractor/vdom_content_util.cpp:422-471 | the flat table walked by one pointer, diagonal only on a match, ends with the recursive distance; every access is inside the table |
| EditTables.FillInside | qcontentextractor/vdom_content_util.cpp:445-466 | the walking pointer visits the inner cells row by row and leaves each with the distance of its two prefixes |
| EditTables.EditDistance | qcontentextractor/vdom_content_util.cpp:473-489 | the two-dimensional table with the three-way minimum gives the recursive distance |
| EditTables.Cell | qcontentextractor/vdom_content_util.cpp:481-487 | a cell's distance from its three neighbours, for both ways of filling it |
| EditScripts.DistanceIsLeastCost | qcontentextractor/vdom_content_util.cpp:473-489 | the recursive distance is the least cost of any edit script: no script is cheaper and some script costs as much |
| EditScripts.DistanceIsSymmetric | qcontentextractor/vdom_content_util.cpp:473-489 | distance does not depend on the order of the strings |
| EditScripts.TriangleInequality | qcontentextractor/vdom_content_util.cpp:473-489 | the triangle inequality, by composing edit scripts |
| EditScripts.Compose | qcontentextractor/vdom_content_util.cpp:473-489 | two scripts in a row make one that costs no more than both |
| EditScripts.DistanceBounds | qcontentextractor/vdom_content_util.cpp:473-489 | the distance lies between the difference of the lengths and the longer length |
| EditScripts.ZeroOnlyForEqual | qcontentextractor/vdom_content_util.cpp:473-489 | the distance is zero exactly for equal strings |
| EditScripts.NeighboursDifferByOne | qcontentextractor/vdom_content_util.cpp:449-463 | one more byte changes a distance by at most one |
| EditScripts.DiagonalOnMatch | qcontentextractor/vdom_content_util.cpp:449-463 | on equal bytes the diagonal alone is the three-way minimum, so the shortcut is right |
| EditTables.TitleSimilarity | qcontentextractor/vdom_content_block.h:306-315 | the title similarity is in [0,1], 0.75 for an empty title, and otherwise 1 exactly for equal strings |
| HubMonitor.StepKeepsExclusive | qcontenthub/qcontenthub_rpc.cpp:139-269 | every step of every thread keeps the lock with one thread at most |
| HubMonitor.StepKeepsConserved | qcontenthub/qcontenthub_rpc.cpp:139-269 | every step keeps: pushed items are the popped and cleared ones followed by the queued ones, in order, and the push counter counts them |
| HubMonitor.StepKeepsDeliveredOnce | qcontenthub/qcontenthub_rpc.cpp:206-269 | every step keeps: each popped item is the reply of the one thread that took it |
| HubMonitor.FifoOverEveryRun | qcontenthub/qcontenthub_rpc.cpp:123-269 | over every interleaving from an empty queue, with clears, the queue is first in first out and loses or doubles nothing |
| HubMonitor.SizeNeverExceedsCapacityPlusOne | qcontenthub/qcontenthub_rpc.cpp:148-195 | over every run the size is at most the largest capacity set so far plus one |
| HubMonitor.StepKeepsNoLostWakeup | qcontenthub/qcontenthub_rpc.cpp:148-243 | every step of push and pop keeps: threads roused but not yet running number at least the items (the free places) an unsignalled sleeper waits for |
| HubMonitor.NoLostWakeupOverEveryRun | qcontenthub/qcontenthub_rpc.cpp:148-243 | no lost wakeup in any interleaving of blocking and nowait pushes and pops with a fixed capacity |
| HubMonitor.SomebodyIsAboutToRun | qcontenthub/qcontenthub_rpc.cpp:148-243 | whenever a thread sleeps although it could go on, some other thread has been signalled and not yet resumed |
| HubUnsignalled.NoSlack | qcontenthub/qcontenthub_rpc.cpp:139-243 | for every capacity and number of items, pushes and pops can leave a push asleep with just as many roused as there are free places |
| HubUnsignalled.ClearIsSafeExactly | qcontenthub/qcontenthub_rpc.cpp:123-137 | clearing loses no wakeup, in any reachable state with so many items, if and only if there are none: clear_queue signals nobody |
| HubUnsignalled.SetCapacityIsSafeExactly | qcontenthub/qcontenthub_rpc.cpp:79-92 | setting the capacity loses no wakeup if and only if it is not raised, or stays negative: set_queue_capacity signals nobody |
| HubServer.Queue.Push | qcontenthub/qcontenthub_rpc.cpp:150-175 | the blocking push pushes its item once, last and into a queue with room; it answers again only when its waiting ends in a time-out and error only when it ends in a failure, and then pushes nothing, whatever other calls do while it waits |
| HubServer.Queue.PushNowait | qcontenthub/qcontenthub_rpc.cpp:190-202 | the item is pushed exactly when the size is at most the capacity |
| HubServer.Queue.Pop | qcontenthub/qcontenthub_rpc.cpp:213-242 | the blocking pop takes the longest queued item; it answers that it got none only when its waiting ends in a time-out or a failure, and says which |
| HubServer.Queue.PopNowait | qcontenthub/qcontenthub_rpc.cpp:257-267 | the longest queued item, or the again mark for an empty queue |
| HubServer.Queue.Clear | qcontenthub/qcontenthub_rpc.cpp:123-137 | every queued item is removed in order, none pushed |
| HubServer.Queue.SetCapacity | qcontenthub/qcontenthub_rpc.cpp:79-92 | only the capacity changes |
| HubServer.Server.AddQueue | qcontenthub/qcontenthub_rpc.cpp:13-33 | an existing queue is kept as it is, a new one starts empty, no queue is removed |
| HubServer.Server.PushQueue | qcontenthub/qcontenthub_rpc.cpp:139-176 | a push to a missing queue adds it and calls itself once, never twice; other queues stay untouched |
| HubServer.Server.PushQueueNowait | qcontenthub/qcontenthub_rpc.cpp:178-204 | a nowait push to a missing queue adds it and goes through the blocking push, which does not wait |
| HubServer.Server.PopQueue | qcontenthub/qcontenthub_rpc.cpp:207-243 | again for a missing or stopped queue, otherwise an item or the way the waiting ended |
| HubServer.WaitingEndsOneWay | qcontenthub/qcontenthub_rpc.cpp:158-170 | the waiting of a call ends in one way: at the first wait that is not signalled |
| HubServer.Server.PopQueueNowait | qcontenthub/qcontenthub_rpc.cpp:245-269 | error for a missing queue, again for a stopped or empty one, otherwise its first item |
| Crawler.QCrawler.Loop | qcrawler/qcrawler.cpp:176-457 | over any events in any order: connections at most `multiple`, buffer and connections together at most record_buf_size + multiple - 1, a record that starts without redirects is submitted at most five times; a record once delivered, dropped or not needed stays so, delivered only if the hub accepted it and dropped only if the hub refused it |
| Crawler.QCrawler.InOnePlace | qcrawler/qcrawler.cpp:199-457 | every record ever popped is in exactly one of: in flight, buffered, delivered, not needed, dropped by the push cycle; no place holds a record twice |
| Crawler.QCrawler.CycleFetchTask | qcrawler/qcrawler.cpp:199-260 | unless stopped, or paused with records in the buffer, and with room and answers to come, the URL queue is asked and a record to be crawled is submitted once; the loop ends only by a pause, the limit, a full buffer, full connections or an answer that is no record; no record known before is submitted again |
| Crawler.QCrawler.FetchOne | qcrawler/qcrawler.cpp:212-238 | a popped record is submitted once if it is to be crawled; a record that is not needed is noted as such and nothing else happens; any other is the next the hub is asked about, and goes to the hub or, as it is, to the buffer |
| Crawler.QCrawler.PushTask | qcrawler/qcrawler.cpp:406-434 | the hub is asked about the record next; if it accepts, the record comes next in its input and more is fetched; if not, the record is last in the buffer, the crawl is paused and nothing is fetched |
| Crawler.QCrawler.HttpFetchCb | qcrawler/qcrawler_http.cpp:154-207 | a finished request is over for good; a redirect to a valid address, up to the fourth, submits its record exactly once more, every other record is pushed, with the redirect counted; the third fatal resolver failure in a row stops the crawler |
| Crawler.QCrawler.SubmitHttpFetch | qcrawler/qcrawler_http.cpp:141-152 | the record is submitted once, and no other known record is, although the resolver may call back at once |
| Crawler.QCrawler.HttpDnsCb | qcrawler/qcrawler_http.cpp:322-372 | a record whose host is not resolved is pushed; a resolved request connects, or is over and pushed |
| Crawler.QCrawler.CyclePushTask | qcrawler/qcrawler.cpp:436-457 | the hub is asked about the buffered records in turn, up to the first it does not accept: those it accepted go to it in order, a refused one is dropped, one to come again for stays and pauses the crawl |
| Crawler.QCrawler.Handle | qcrawler/qcrawler.cpp:176-191 | each event leads to what it should: a timer drains the buffer and fetches, a failed resolution, connection or wait pushes the record, a closed request moves its record on; the invariant is kept |
| Crawler.QCrawler.TimerCallback | qcrawler/qcrawler.cpp:176-191 | with an empty buffer, no stop, room for a connection and answers to come, something is fetched; with records buffered, the hub is asked about the first |
| Crawler.FollowsChain | qcrawler/qcrawler.cpp:176-457 | what a step leaves behind it leaves behind for good: the URL queue is asked in order and each record it gave has a name, hub input and answers only grow, final places stay, a stop and a closed request are final |
| Crawler.NeedCrawlMeans | qcrawler/qcrawler.cpp:110-174 | which facts exclude a submission: filtered, a stored thumbnail, a page to be inserted once that was crawled; and only the last is not pushed either |
| Crawler.RedirectIsReady | qcrawler/qcrawler.cpp:262-404 | a redirect within the limit always has a submission left |
| HashBase.TableAscends | qdedup/main.cpp:45-80 | the prime table is strictly ascending |
| HashBase.GetHashBase | qdedup/main.cpp:45-80 | the largest table entry below the limit, so that every bit index lies inside the map |
| DedupIndex.HashBytes | qdedup/main.cpp:82-105 | the rotate-and-xor loop computes the specified hash, below the base |
| DedupIndex.Dedup.Check | qdedup/main.cpp:175-280 | verdict and bitmap after a submission are those of the specification, whose hash, sentences and verdict are pinned down by the laws below; a rejection leaves the bitmap as it was |
| DedupIndex.Dedup.ScoreAll | qdedup/main.cpp:193-262 | one pass splits the text, sums the sizes seen and notes every bit; the notes never outgrow MAX_SENTENCES |
| DedupIndex.Dedup.SetFlags | qdedup/main.cpp:273-278 | the noted bits are or-ed into the map: exactly the hashes of the sentences are added |
| DedupIndex.SetBit | qdedup/main.cpp:274-276 | setting one bit of one byte adds exactly one index |
| DedupIndex.RatioTest | qdedup/main.cpp:264-272 | the 0.85 rule as exact integers |
| DedupSpec.SplitIsBounded | qdedup/main.cpp:193-262 | the splitter yields at most MAX_SENTENCES sentences, the tail included |
| DedupSpec.IndexOnlyGrows | qdedup/main.cpp:271-278 | over any submissions bits are only ever set |
| DedupSpec.RejectionIsMonotone | qdedup/main.cpp:264-279 | what is rejected stays rejected under any larger index |
| DedupSpec.SubmittedOnceIsRejectedForever | qdedup/main.cpp:175-280 | after one submission, accepted or not, every later submission of the same document is rejected, whatever came in between |
| DedupSpec.VerdictIgnoresDigits | qdedup/main.cpp:82-105 | with a non-zero site hash, replacing digits by other digits changes neither verdict nor update |
| DedupLaws.HashIsBlend | qdedup/main.cpp:82-105 | the hash in closed form: the start turned once for every byte that counts, xor-ed with each such byte turned once for every one after it, modulo the base; with a site digits count as underscores |
| DedupLaws.HashIgnoresSpace | qdedup/main.cpp:86-89 | white space, wherever it stands, does not change the hash |
| DedupLaws.EveryByteMatters | qdedup/main.cpp:90-101 | in any text, exchanging one byte that counts for another changes the hash state, unless both are digits and a site masks them |
| SentenceLaws.PunctSizeMeans | qdedup/main.cpp:107-145 | a mark is found exactly where one of eleven given byte strings stands, with its size |
| SentenceLaws.SentencesAreTheLongStretches | qdedup/main.cpp:193-262 | the sentences are the first thousand stretches between marks that are longer than twenty bytes, in order: each is one, and none of them is left out |
| SentenceLaws.VerdictIsShareSeen | qdedup/main.cpp:264-279 | rejected if and only if there is no sentence or the sentences whose hash is known are at least 0.85 of the text in sentences |
| VdomNode.Node.BuildVdomTree | libqvdom/vdom.h:959-972 | below the node every parent link and child index is right and every cache is empty |
| VdomNode.Node.GetContent | libqvdom/vdom.h:832-845 | the content is the concatenated text, from the cache or computed, and every cache below stays right |
| VdomNode.Node.AllChildrenInline | libqvdom/vdom.h:931-957 | the cached flag, computed with an early exit, is the recursive one; caches stay right |
| VdomNode.AllInlineMeansNoBreakBelow | libqvdom/vdom.h:931-957 | the flag holds exactly when no element at any depth below is a block or one of BR, H1, DIV |
| VdomNode.Node.GetAllTexts | libqvdom/vdom.h:865-875 | the text nodes below are appended in document order |
| VdomNode.Node.ContentIsTexts | libqvdom/vdom.h:832-875 | the content is the texts of exactly those text nodes, joined in that order |
| VdomNode.Node.BuildRepeatSig | libqvdom/vdom.h:978-1010 | every element below holds the signature of its tree |
| RepeatSig.SigPrintsSkeleton | libqvdom/vdom.h:978-1010 | the signature is the print of the skeleton: texts dropped, mark-up elements spliced out |
| RepeatSig.ReadPrint | libqvdom/vdom.h:978-1010 | a reader takes any print of skeletons apart again, up to the closing tag |
| RepeatSig.SigReadsBack | libqvdom/vdom.h:978-1010 | a signature whose tags hold neither separator reads back as the skeleton |
| RepeatSig.SameSigIffSameSkeleton | libqvdom/vdom.h:978-1010 | two such nodes have equal signatures if and only if their skeletons are equal |
| RepeatSig.SameSkeletonSameSig | libqvdom/vdom.h:978-1010 | equal skeletons sign alike, whatever the tags are called |
| RepeatSig.DashedTagsCollide | libqvdom/vdom.h:978-1010 | with a dash in a tag, whatever is around it, an element in another and two side by side print alike |
| RepeatSig.HashedTagsCollide | libqvdom/vdom.h:978-1010 | with a hash in a tag, two elements in another and three side by side print alike |
| RepeatSig.OnlySeparatorsConfuse | libqvdom/vdom.h:978-1010 | with one character beside an ordinary letter in the tags, two nodes with different skeletons can have equal signatures if and only if the character is one of the two separators |
| TextBlocks.TextBlock.ComputeAnchorLength | qcontentextractor/vdom_content_block.h:53-70 | the recursion counts the text inside links, once for nested links |
| TextBlocks.LinkedWithinContent | qcontentextractor/vdom_content_block.h:53-99 | text inside links is never longer than the content |
| MeasureLaws.LinkedIsLinkTexts | qcontentextractor/vdom_content_block.h:53-70 | the anchor length is the length of the texts below an A, each counted once however deep links nest |
| MeasureLaws.TagCountIsNodesBelow | qcontentextractor/vdom_content_block.h:105-118 | the tag count is the number of nodes below, texts included |
| MeasureLaws.BlanksIsTheirNumber | qcontentextractor/vdom_content_block.h:176-191 | the space count is the number of spaces, tabs and line feeds |
| TextBlocks.TextBlock.GetAnchorRatio | qcontentextractor/vdom_content_block.h:86-99 | the cached link ratio is a percentage of the content |
| TextBlocks.TextBlock.GetSpaceRatio | qcontentextractor/vdom_content_block.h:176-206 | the cached space ratio is a percentage, and 100 exactly for non-empty blank content |
| TextBlocks.TextBlock.GetTagDensity | qcontentextractor/vdom_content_block.h:105-131 | the cached density is the nodes below per byte of content |
| ContentExtractor.Extractor.ExtractBlockList | qcontentextractor/vdom_content_extractor.cpp:181-211 | the recursion lays out exactly the kept pieces of the subtree, with their noise flags |
| BlockList.BlocksCoverThePage | qcontentextractor/vdom_content_extractor.cpp:181-211 | the texts under the blocks, block after block, are the page's texts in order less those under an element skipped as noise |
| BlockList.TextsComeOnce | libqvdom/vdom.h:865-875 | no text node is listed twice |
| BlockList.BlocksShareNoText | qcontentextractor/vdom_content_extractor.cpp:181-211 | each text is in one block only: two different blocks of a page share none |
| BlockList.LayingKeepsAgreement | qcontentextractor/vdom_content_extractor.cpp:181-211 | for neighbouring blocks next_is_noise of the first equals prev_is_noise of the second |
| BlockList.BlockFollowsNoise | qcontentextractor/vdom_content_extractor.cpp:181-211 | a block follows noise exactly when the piece before it was skipped; the first takes over the flag an earlier page left |
| BlockList.StaleFlagShowsExactly | qcontentextractor/vdom_content_extractor.cpp:181-211 | the flag is not reset between pages: a page is cut as if it were the first, except exactly when the page before ended in noise and this one begins with a block |
| BlockExpansion.ExpansionIgnoresStart | qcontentextractor/vdom_content_extractor.cpp:769-815 | that flag is harmless: it is looked at only where the walk ends anyway, so which blocks become content does not depend on it |
| BlockExpansion.ReachIsMarked | qcontentextractor/vdom_content_extractor.cpp:736-767 | what one walk marks, said outright: blocks up to one that fits, or before one it joins, that the walk gets to |
| BlockExpansion.WalkIsBounded | qcontentextractor/vdom_content_extractor.cpp:736-807 | one walk marks no bad block, at most three texts and eight spacers, and crosses no noise inside the run |
| BlockLaws.FitsOnPage | qcontentextractor/vdom_content_extractor.cpp:758-761 | on a page whose coordinates fit an int: a block fits a walk if and only if the gap is below 200 either way, its right edge is past 11 percent of the page, and size, links, tags and blanks are within their limits |
| BlockLaws.FitsIsMonotone | qcontentextractor/vdom_content_extractor.cpp:758-761 | what fits still fits with more text, fewer links, tags and blanks, nearer, and farther to the right |
| BlockLaws.CloseOnPage | qcontentextractor/vdom_content_extractor.cpp:753-757 | close means fewer than 400 pixels apart, either way |
| BlockLaws.SpacerOrTextual | qcontentextractor/vdom_content_extractor.cpp:740-747 | no block is counted both as a spacer and as a text |
| BlockExpansion.ExpansionIsSound | qcontentextractor/vdom_content_extractor.cpp:725-818 | after growing from all good blocks every good block is content, no bad one is, and every content block is tied to a good one by an unbroken run of content |
| ContentExtractor.Extractor.ExpandForward | qcontentextractor/vdom_content_extractor.cpp:736-767 | the loop down the page marks exactly the blocks of the specified walk |
| ContentExtractor.Extractor.ExpandBackward | qcontentextractor/vdom_content_extractor.cpp:769-815 | the loop up the page marks exactly the blocks of the specified walk and stops at the first block |
| ContentExtractor.Extractor.ExpandGoodBlock | qcontentextractor/vdom_content_extractor.cpp:725-818 | the content set is that of the specification, grown block by block |
| ContentExtractor.Extractor.TagBlock | qcontentextractor/vdom_content_extractor.cpp:677-715 | a block is tagged bad, good or neither by its measures, its text and the title above it, never both |
| BlockLaws.GoodOnPage | qcontentextractor/vdom_content_extractor.cpp:692-714 | good in plain numbers: place on the page, width or punctuation, and at least 36 bytes with few links, tags and blanks |
| BlockLaws.GoodIsMonotone | qcontentextractor/vdom_content_extractor.cpp:701-708 | a good block stays good with more text and fewer links, tags and blanks |
| BlockLaws.BadOnPage | qcontentextractor/vdom_content_extractor.cpp:686-690 | bad means less than 200 pixels high, fewer than 200 normalized bytes and a noise word; a lower block with less text stays bad |
| ContentExtractor.Extractor.MarkTitle | qcontentextractor/vdom_content_extractor.cpp:362-368 | the title block becomes bad and not good; no other block changes |
| ContentExtractor.Extractor.MergeContentBlock | qcontentextractor/vdom_content_extractor.cpp:821-882 | the merged text is that of the specification, which the two laws below say outright |
| MergeLaws.MergedIsAssembled | qcontentextractor/vdom_content_extractor.cpp:821-882 | read from first to last: the texts of the content blocks in order, a section mark before one exactly when blocks were left out since the one before it, a space exactly when that one was not blank, a paragraph mark before a block of its own line; on a list page or without content, the texts of all blocks that are not bad |
| MergeLaws.MergedKeepsTheTexts | qcontentextractor/vdom_content_extractor.cpp:821-882 | spaces and marks aside, the merged text is the concatenation of the chosen blocks' texts in page order |
| ContentMerge.BadBlocksDoNotShow | qcontentextractor/vdom_content_extractor.cpp:821-882 | two pages that differ at most in what their bad blocks say merge to the same text, by either branch |
| ContentExtractor.Extractor.Extract | qcontentextractor/vdom_content_extractor.cpp:62-168 | from build to merge: the blocks cover the page and share no text, content is sound, the title is not part of it, and the result is a function of the page: the same whatever the bad blocks said and whatever page came before |
| ContentConfidence.ComputeContentConfidence | qcontentextractor/vdom_content_extractor.cpp:1299-1420 | the confidence is 50 without content, 100 for much content, and always between 38 and 100; it is computed from the longest early run, the total and the number of runs |
| ContentConfidence.RunSizeIsItsText | qcontentextractor/vdom_content_extractor.cpp:1346-1360 | the running sum is the text of the current run, if it starts on the first two screens |
| ConfidenceLaws.RunsIsTheirNumber | qcontentextractor/vdom_content_extractor.cpp:1329-1376 | the run count is the number of content blocks that come first or after another block |
| ConfidenceLaws.TotalIsContentSize | qcontentextractor/vdom_content_extractor.cpp:1355-1357 | the total is the text of all content blocks |
| ConfidenceLaws.MaxRunIsTheLargest | qcontentextractor/vdom_content_extractor.cpp:1329-1376 | the longest run is some run's size and no run is longer |
| ConfidenceLaws.BonusGrows | qcontentextractor/vdom_content_extractor.cpp:1378-1415 | a larger share of good blocks, a larger average run or a longer run never lowers the confidence |
| ConfidenceLaws.BonusAtFixedPoints | qcontentextractor/vdom_content_extractor.cpp:1378-1415 | nothing at a tenth of good blocks, an average of 50 and a run of 100; 10 more at four tenths, 20 more at an average of 300, 20 more at a run of 500; -12 at worst |
| Crc32.TableIsDivision | qlangid/crc32.c:39-105 | each of the 256 table entries is its index divided eight times by the polynomial 0xEDB88320 |
| Crc32.TableStepIsFeed | qlangid/crc32.c:32-32 | one table step is eight steps of bitwise division |
| Crc32.UdmCRC32 | qlangid/crc32.c:107-120 | the loop computes the CRC of section 8 of RFC 1952 for every byte string |
| Crc32.Linear8 | qlangid/crc32.c:32-32 | division is linear |
| Crc32.Reversible8 | qlangid/crc32.c:32-32 | division loses nothing |
| Crc32.BurstChangesCrc | qlangid/crc32.c:107-120 | two strings that differ within four bytes in a row have different CRCs |
| Crc32.Residue | qlangid/crc32.c:107-120 | a string with its CRC appended leaves the fixed residue, whatever the string |
| LangMap.BuildLangMap | qlangid/qlangid.cpp:216-273 | the one pass with a sliding window adds to each bucket the number of its n-grams in the cleaned text |
| LangLaws.CleanedIsCollapsed | qlangid/qlangid.cpp:216-250 | cleaning drops the control bytes, then leading and repeated spaces, and nothing else |
| LangLaws.SharedCounter | qlangid/qlangid.cpp:253-255 | two n-grams share a counter if and only if their CRCs agree in the low twelve bits |
| LangMap.TallyCountsGrams | qlangid/qlangid.cpp:216-273 | the tally of a bucket is the number of substrings of length one to six whose CRC falls into it |
| LangMap.TotalCount | qlangid/qlangid.cpp:216-273 | all buckets together gain 6n-15 for a cleaned text of length n of at least five, and n(n+1)/2 below |
| Correlation.LangMap.Prepare | qlangid/qlangid.cpp:311-332 | mean and dispersion of the 4096 counts |
| Correlation.LangMap.Check | qlangid/qlangid.cpp:335-361 | the correlation of two prepared maps, in [-1,1], and zero when either has no dispersion |
| Correlation.CauchySchwarz | qlangid/qlangid.cpp:335-361 | the squared covariance is at most the product of the variances, over any counts |
| Correlation.CorrelationInRange | qlangid/qlangid.cpp:335-361 | the correlation is between -1 and 1 |
| Correlation.CorrelationIsSymmetric | qlangid/qlangid.cpp:335-361 | the correlation does not depend on the order of the maps |
| Correlation.SelfCorrelation | qlangid/qlangid.cpp:335-361 | a map with dispersion correlates with itself by 1 |
| LangLaws.CovarianceMeans | qlangid/qlangid.cpp:335-361 | the covariance is the mean of the products less the product of the means |
| LangLaws.CorrelationMeans | qlangid/qlangid.cpp:311-361 | the correlation times both dispersions is the covariance, and zero if a dispersion is below 0.00001; a squared dispersion is the variance |

## Left out

- Sockets, libev, udns, msgpack-rpc, Qt, Tokyo Cabinet, mmap, file loading, command lines, logging: foreign code or plumbing.
- Protobuf accessors and serialisers (`libqvdom/vdom.cpp`, most of `libqvdom/vdom.h`): a node's fields are given. Text nodes have no children and no tag, as the document object model has it.
- Signed overflow, which C++ leaves undefined, is 32-bit wrap-around in the chunk scanner, the status number and block coordinates. Coordinates are the unsigned 32-bit fields of `libqvdom/vdom.h`; `vdom.proto` declares them signed, and the code that is compiled wins.
- Rows 0 of both scanner tables: the loops leave in state 0 before looking anything up.
- ChunkedRoundTrip.RoundTrip: the encoder prints the extensions that the scanner reads; of those of the RFC, the ones without a value or with other token characters fail, as `ExtensionsExactly` says.
- ChunkedRoundTrip.RoundTripExactly: stops at four gigabytes, beyond which the counter wraps again and a swallowed chunk may be closed by chance.
- gzip inflation is any function that inflates or fails; its fixed 2 MB buffer is not modelled. The end-of-input action of the response scanner is the case of a scan that ends in the body.
- EditTables.Levenshtein: malloc failure and int overflow of the table size are not modelled. The difference of lengths is taken mathematically.
- `normalize_text_to_line`, `normalize_content` and `normalize_text`: rewriting after the fact; `ContentMerge` ends at the text they are given, and any function of that text inherits `BadBlocksDoNotShow`.
- HubMonitor.NoLostWakeupOverEveryRun: a timeout never consumes a signal, and a signal wakes exactly one sleeper if there is one. Runs may clear an empty queue and lower the capacity; `HubUnsignalled` shows that they may do no more.
- The hub's map is read without its lock (`unsafe_ref`); the model reads it atomically. `start_queue`, `stop_queue` and `stats` are left out, as are replies that are missing (`clear_queue`) or sent twice (`set_queue_capacity` of a missing queue).
- HubServer.Queue.Push: what other threads do during a wait is any sequence of queue operations; the interleavings themselves are in `HubMonitor`.
- Crawler: cycle-time tuning, record contents and statuses, URL parsing, statistics and the order of freeing memory. The URL queue answers from a finite list, which is what makes the nesting end. A request is submitted only through the fetch loop and redirects.
- Dedup: the int totals are unbounded, and so are the counters of the language map; file and mapping errors are left out.
- Rounding: ratios, densities, confidences, means and correlations are exact reals. `Correlation` takes any function that returns square roots.
- `check_is_noise` and the PCRE tests in `Util` are arbitrary predicates. `extract_title` is reduced to its last step: which block is chosen is arbitrary. List confidence, repeat groups, images and publish time are not modelled, and whether a page is a list is arbitrary.
- ContentExtractor.Extractor.ExpandForward: the test reads measures through the caches in another order than the source's short-circuit conditions; only the caches could tell.
- `correct_title_for_list` is commented out in the source and left out here.
- `get_elements_by_tag_name`, sibling getters, font sizes: easy members. So are `qhost2site`, `qfetcher`, `hubmgr`, the RPC clients, configuration and `base/`.
