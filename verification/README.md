# A verified model of the crawler, its server and the word index

The repository has three programs. `myhttpd` hands accepted connections to a pool of threads through a ring of sockets
and answers each with a file. `mycrawler` fetches pages with a pool of threads until no listed page is left and no
thread is at work. `jobExecutor` deals paths out to worker processes, which can index text files in a trie. This project
models the parts of them that carry hard properties and proves those properties, for every input and every run.

* **Crawl.** `PageLists` and `Crawlers` are the linked lists, the globals and the stretches of code that threads run
  under the lock. `CrawlMachine` is the crawl as a state machine: a stretch of code under the lock is one step, each
  thread has its program counter, a signal wakes one sleeper or more (`Conditions`), and wake-ups may be spurious.
  `CrawlInvariants` and `CrawlTheorems` say what each step keeps and what whole runs amount to, for any number of
  threads and any schedule. `LinkScan` is the loop that finds a page's links while cutting the page up in place.
* **Server.** `Queues` is the ring. `ServerMachine` and `ServerTheorems` are the hand-off, whose signals are sent after
  the lock is let go; a service comes to its end only if the client is willing, that is, sends as many lines as a
  request has and takes the answer. `Servers` ties the code to the machine, `ServerOverHttp` says what willing means for
  what a client sends.
* **Wire.** `CText`, `Sockets` and `Http` are C strings, decimal numbers, streams that arrive in pieces of any size, and
  both ends' printing and parsing. They use the part of HTTP/1.1 that sections 3.1.1, 3.1.2 and 3.3.2 of RFC 7230
  describe; where the code departs from it, the model follows the code (the request has no empty line at its end and a
  NUL after it). `CrawlOverHttp` joins wire and crawl: the static site that the crawl machine assumes is what the server
  sends, for every page that a thread of any run fetches.
* **Index.** `TextMap` loads numbered lines. `Words` and `Postings` say what the index should be, and `PostingLists` are
  the linked lists it is kept in. `Tries` builds the first-child/next-sibling trie in place; beside the nodes it keeps a
  ghost list of them in the order they were made (`TrieStore`), where links always lead to younger nodes. `LineProgress`
  and `TextProgress` say what has been built part way through, `IndexTheorems` what a finished text means, and
  `Indexing` puts loader, builder, search and ranking together. `CountResults` is the per-file maximum and minimum.
* **Paths.** `JobExecutor` is the round-robin distribution.

Several promises turned out to hold only under a condition; each is proved together with the exact condition.

* A later text added to an existing trie is *not* simply added. Its first letter passes for the letter of the root, and
  its second letter throws away everything below the root (`IndexTheorems.UnionExactlyWhenSafe`, with "dog" taken for
  "cog" as an instance).
* The server can come to a stand over a waiting socket exactly if it has one thread, since a ring of one slot is empty
  and full at once, or if as many clients as it has threads are not willing: each of those ties up a thread for ever
  (`ServerTheorems.DeadlockExactly`, with clients that send nothing as an instance). With willing clients only, that is
  exactly if it has one thread.
* The crawl can come to the point where the detector fires exactly if finitely many pages can be reached and each is
  answered: with one of the three codes, and with its anchors closed (`CrawlTheorems.CrawlEndsExactly`,
  `CrawlOverHttp.CrawlOfFilesEndsExactly`).
* A page name arrives at the server exactly if it has no CR and no LF and at most 9813 characters: with one more the
  request overruns the buffer it is printed into (`Http.RequestArrivesExactly`). So all reachable pages can be asked for
  exactly if the start can and no link on the way has a CR or is longer (`CrawlOverHttp.ReachableIsAskable`).
* An answer arrives exactly if its text is shorter than INT_MAX (`Http.AnswerArrivesExactly`): a longer text is
  announced under the cast of its length, and for INT_MAX itself the crawler's buffer size overflows. The crawler gets
  as many bytes as a file has exactly if the file also has no NUL (`Http.FileArrivesWhole`); and what it counts is what
  the server counts exactly under the condition of `Http.BytesAgreeExactly`, which for a file shorter than INT_MAX says
  that it has no NUL.
* The scan for links writes through a NULL pointer exactly when an anchor line that has ended lacks its closing quote
  (`LinkScan.ScanLinks`, `LinkScan.ClosedOfLines`).
* A file of numbered lines loads exactly if each line bears its number before its first blank; in particular never if it
  ends with a newline (`TextMap.LoadedExactly`, `TextMap.FinalNewlineFails`).

The definitions that code and theorems share are pinned by lemmas in plain terms (most of their names end in
`Plainly`): these name the characters, texts and numbers of the original and not the definitions.

## Model

| member | source | states |
|---|---|---|
| CrawlTheorems.CrawlIsExact | mycrawler.c:141 | whenever the detector (no workers, nothing listed) fires, after any run with any number of threads, the recorded pages are exactly those reachable from the start, each once |
| CrawlTheorems.QuietIsClosed | crawlThread.c:187-215 | the invariant together with the detector's condition gives the reachability closure |
| CrawlTheorems.QuietIsStable | mycrawler.c:136-143 | after the detector has fired no run changes the lists, the workers or the counters |
| CrawlTheorems.QuietTotals | crawlThread.c:121-131 | by then pages and bytes downloaded are the sums over the reachable pages that came with 200, in whatever order they are listed |
| CrawlTheorems.DownloadsPlainly | crawlThread.c:121-127 | once the detector has fired, `pagesDownloaded` is the number of reachable pages that came with 200 and `bytesDownloaded` the sum of their lengths |
| CrawlMachine.OutLinksPlainly | crawlThread.c:60-90 | a page that came with 200 links to the texts between anchor and next quote, line by line; any other page to nothing |
| CrawlTheorems.CrawlsAgree | crawlThread.c:187-215 | two finished crawls of one site agree on pages and on both counters, whatever their thread counts and schedules |
| CrawlTheorems.NeverStranded | crawlThread.c:77-82 | while a thread sleeps, no more pages are listed than there are threads awake to take them; so a listed page never meets sleepers only |
| CrawlTheorems.StepWorks | crawlThread.c:60-90 | each removal, link offer and finish does one unit of the work ahead, and no other step changes it |
| CrawlTheorems.CrawlWork | crawlThread.c:187-215 | a run has at most (links + 2) such steps for each reachable page, and exactly that many once it is over |
| CrawlTheorems.RankStep | crawlThread.c:189-193 | a measure that falls in every step but a spurious wake-up, which raises it by one |
| CrawlTheorems.CrawlIsBounded | crawlThread.c:185-217 | but for spurious wake-ups, the number of steps of any run is bounded by the site and the number of threads |
| CrawlTheorems.CrawlGoesOn | crawlThread.c:185-217 | a crawl that is not over always has a step other than a spurious wake-up, if each page recorded so far is answered |
| CrawlTheorems.CrawlEndsExactly | mycrawler.c:141 | some run comes to where the detector fires exactly if finitely many pages are reachable and all of them are answered |
| CrawlTheorems.ResolvedKept | crawlThread.c:107-140 | every step keeps: a recorded page is answered, or a thread is still busy with it |
| CrawlInvariants.InitInv | mycrawler.c:69-78 | the invariant holds when the start page is listed and the threads are made |
| CrawlInvariants.ListedKept | crawlThread.c:77-82 | every step keeps: no page twice within or across the lists, the start is known, only reachable pages are known |
| CrawlInvariants.CoveredKept | crawlThread.c:195-210 | every step keeps: busy threads have recorded pages of their own whose first links are known, and any other recorded page has all its links known |
| CrawlInvariants.CountedKept | crawlThread.c:197-210 | every step keeps: `workers` is the number of busy threads |
| CrawlInvariants.MeasuredKept | crawlThread.c:121-131 | every step keeps: the counters are the sums over recorded pages less the answers still awaited |
| CrawlInvariants.NoLostWorkKept | crawlThread.c:81-82 | every step keeps the bound on listed pages while a thread sleeps |
| CrawlInvariants.InvAlways | crawlThread.c:185-217 | the invariant holds after every run |
| Crawlers.Crawler.constructor | mycrawler.c:69-78 | the initial state of the machine: the start page listed before any thread |
| Crawlers.Crawler.LookForPage | crawlThread.c:189-201 | sleep if nothing is listed, or take the first page listed, record it in front and count one worker more, in one critical section, as the machine's step |
| Crawlers.Crawler.CountAnswer | crawlThread.c:107-131 | for 200 one page and its size more, for any other code nothing: an enabled step of the machine |
| Crawlers.Crawler.OfferLink | crawlThread.c:73-86 | a link is listed, and a sleeper signalled, unless it is in one of the lists: an enabled step of the machine |
| Crawlers.Crawler.SignalNonEmpty | crawlThread.c:81 | at least one sleeper goes on, if there is one |
| Conditions.WakeGrows | crawlThread.c:81 | after a signal more threads are awake, if one slept |
| Crawlers.Crawler.FinishPage | crawlThread.c:206-213 | one worker less: an enabled step of the machine |
| Crawlers.Crawler.IsOver | mycrawler.c:141 | true exactly if there are no workers and nothing is listed |
| PageLists.PageList.Add | list.c:6-11 | the page goes in front |
| PageLists.PageList.Rem | list.c:13-19 | the first page comes off |
| PageLists.PageList.Empty | list.c:21-23 | true exactly of the empty list |
| PageLists.PageList.Check | list.c:25-32 | the walk finds a page exactly if it is in the list |
| LinkScan.ScanLinks | crawlThread.c:60-90 | the loop offers the page's links in order up to the first anchor line that is not closed, on which it fails; if there is none, it leaves the page scrubbed and the rest of the buffer alone |
| LinkScan.SafeLinksAll | crawlThread.c:60-67 | the links offered are all of the page's links exactly if it is closed |
| LinkScan.ScanLine | crawlThread.c:62-75 | one line: its link, if any, and a NUL for its newline and its closing quote |
| LinkScan.CutLink | crawlThread.c:65-71 | the quote is found, overwritten, and the text before it copied |
| LinkScan.CutAnchor | crawlThread.c:63-71 | an anchor line gives its link and loses its quote, or has none |
| CText.BeginsWith | crawlThread.c:63 | the bounded comparison is the prefix test |
| LinkScan.LinksOfLines | crawlThread.c:60-90 | a page's links are those of its newline-terminated lines in order; text after the last newline gives none |
| LinkScan.ClosedOfLines | crawlThread.c:60-67 | the scan is safe exactly if each newline-terminated line that begins as an anchor has its closing quote |
| LinkScan.OpenAnchorIsNotClosed | crawlThread.c:66-67 | an anchor line without closing quote, where the scan breaks off |
| LinkScan.AnchorLinePlainly | crawlThread.c:63-71 | a line `<a href="`, text, quote, more gives the text and loses that quote and its newline |
| LinkScan.OtherLinePlainly | crawlThread.c:62-63 | a line that begins otherwise gives nothing and loses only its newline |
| LinkScan.LastTextPlainly | crawlThread.c:60-61 | text after the last newline gives nothing and stays |
| LinkScan.PageLinks | crawlThread.c:60-90 | the links of a closed page are exactly the texts its lines give, line by line |
| LinkScan.ScrubbedKeeps | crawlThread.c:62-67 | only newlines and quotes are overwritten, every newline is, and nothing after the last one |
| CText.StrChr | crawlThread.c:60 | the first such character of the C string, or -1 |
| CText.StrLen | crawlThread.c:68 | the length of the C string |
| Queues.Queue.constructor | queue.c:6-15 | an empty ring of the given size with its counters at zero; no ring for size 0 |
| Queues.Queue.Full | queue.c:44-52 | full exactly when it holds one element less than it has slots |
| Queues.Queue.Empty | queue.c:38-42 | empty exactly when it holds nothing |
| Queues.Queue.Push | queue.c:54-63 | appends, or refuses exactly when full and then changes nothing |
| Queues.Queue.Pop | queue.c:65-74 | takes the first element, or refuses exactly when empty |
| Queues.Queue.Serve | queue.c:17-19 | one page more, the ring as it was |
| Queues.Queue.AddBytes | queue.c:25-27 | so many bytes more, the ring as it was |
| Queues.PushAppends | queue.c:54-63 | what the ring holds, read round from `embros` to `piso`, grows at its end |
| Queues.PopTakesFirst | queue.c:65-74 | and shrinks at its front |
| Queues.OccupancyPlainly | queue.c:54-74 | from `embros`, as many places round as elements are held, is `piso` |
| ServerTheorems.HandOffIsFifo | server.c:111-123 | in every reachable state hand-off `i` passed on socket `i`; the other accepted sockets are in the ring and with the producer, in order; at most size - 1 are in the ring; every hand-off is held or served, and a thread holds what it was last handed |
| ServerTheorems.WakeUpsAreMinded | serverThread.c:156-169 | while a thread sleeps, queued sockets are covered by awake threads and the producer's unsent signal; while the producer waits, the ring is full or a thread owes it a signal |
| ServerTheorems.NoDeadlock | serverThread.c:149-171 | with two threads or more, and fewer unwilling clients so far than threads, no reachable state has a waiting socket and nobody able to go on; with none, nor one in a thread's hands |
| ServerTheorems.StuckExactly | serverThread.c:149-171 | with two threads or more, where nobody can go on, either all accepted sockets have been handed out in order or each thread hangs with a client of its own; every willing client handed out has been served |
| ServerTheorems.OneSlotPassesNothing | queue.c:38-52 | with one thread nothing is ever pushed, in any run |
| ServerTheorems.OneSlotDeadlocks | server.c:115-118 | with one thread, one client is enough for everyone to sleep over its socket |
| ServerTheorems.HangingDeadlocks | auxFun.c:37-38 | as many unwilling clients as threads, and one more client: a run that ends with its socket waiting for ever |
| ServerTheorems.DeadlockExactly | server.c:67 | a stand over a waiting socket can be reached exactly if the server has one thread or as many clients as it has threads are not willing |
| ServerTheorems.DeadlockExactlyWithOneThread | server.c:67 | with willing clients only, exactly if it has one thread |
| ServerTheorems.RankStep | server.c:127 | a measure that falls in every step that needs neither a client nor a spurious wake-up |
| ServerTheorems.EverySocketIsServed | serverThread.c:149-171 | with two threads or more, once clients stop coming the server makes only so many steps; where it can make no more, every willing client handed out has been served, and unless as many as there are threads were not willing, every accepted socket was handed out in order |
| ServerMachine.InOrderKept | server.c:120 | every step keeps: handed out, then queued, then held are the sockets accepted |
| ServerMachine.AccountedKept | serverThread.c:161-170 | every step keeps: hand-offs are held or served, and a holder holds what it was handed last |
| ServerMachine.SocketsMindedKept | serverThread.c:156-159 | every step keeps the bound on queued sockets while a thread sleeps |
| ServerMachine.RoomMindedKept | server.c:115-118 | every step keeps: a waiting producer has no room or a signal coming |
| ServerMachine.TiedUpKept | serverThread.c:161-170 | every step keeps: the threads busy with unwilling clients are as many as such clients have been handed out |
| ServerMachine.HistoryIsTrue | server.c:104 | the history is the run's: the sockets it accepted and the number of requests it finished |
| ServerMachine.UnwillingPlainly | serverThread.c:35 | the count of unwilling clients is the size of their set |
| ServerMachine.InvAlways | server.c:100-128 | the invariants hold after every run |
| Servers.Server.constructor | server.c:65-95 | the initial state of the machine |
| Servers.Server.PushSocket | server.c:111-123 | wait if the ring holds size - 1 sockets, or put the socket last, as the machine's step |
| Servers.Server.PopSocket | serverThread.c:151-168 | wait if the ring is empty, or take the first socket, as the machine's step |
| Servers.Server.SignalNonEmpty | server.c:127 | the signal for a socket, as the machine's step |
| Servers.Server.SignalNonFull | serverThread.c:169 | the signal for room, as the machine's step |
| ServerOverHttp.WillingExactly | serverThread.c:35-57 | a thread comes back exactly from clients that send six lines, or a first line too short for a request |
| ServerOverHttp.SilentClientsDeadlock | auxFun.c:38 | as many clients that send nothing as there are threads: a deadlock can be reached |
| ServerOverHttp.CrawlersAreServed | crawlThread.c:171-174 | if all clients are crawlers asking for pages and there are two threads or more, then where the server can go no further all of them have been served |
| Sockets.SocketWrite | auxFun.c:81-90 | so many characters are written, in whatever pieces; an error is reported, after a prefix, exactly if a write failed |
| Sockets.SocketRead | auxFun.c:92-104 | exactly the characters asked for are read, in whatever pieces; an error is reported exactly if a read failed, a stall only at the end of the stream |
| Sockets.InputStringFd | auxFun.c:24-51 | one line up to CR or LF, one character after a CR taken along, through a buffer that grows and is never overrun |
| Sockets.ConsumeLines | auxFun.c:106-114 | so many lines are skipped |
| Sockets.LinesPlainly | auxFun.c:37-49 | a line goes up to the first CR or LF, and a CR takes the next character along |
| CText.Grow | auxFun.c:40-44 | a larger buffer with what was read so far |
| CText.CStrPlainly | auxFun.c:49 | a C string is what stands before the first NUL |
| CText.DecimalPlainly | serverThread.c:125 | a number is printed digit by digit, the highest first |
| CText.AtoiPlainly | crawlThread.c:112 | the digits in front count, with one sign; where there are none there is 0 |
| CText.AtoiDigitPlainly | crawlThread.c:112 | each further digit makes the number ten times larger and adds its value |
| CText.AtoiBlankPlainly | crawlThread.c:112 | blanks in front of a number do not matter |
| CText.AtoiDecimal | crawlThread.c:111-112 | reading a decimal number inverts printing it, if no digit follows |
| CText.AtoiPrintInt | serverThread.c:125 | the same for every int, negative ones too |
| Http.RequestArrivesExactly | crawlThread.c:171-174 | the server parses what `get` sends to root directory, slash, page, with only the NUL left over, exactly if the page has no CR and no LF and fits the buffer |
| Http.RequestRoundTrip | serverThread.c:34-57 | parsing inverts printing for every page name without CR, LF and NUL, blanks or not |
| Http.RequestFits | crawlThread.c:171-172 | the printed request fits its buffer exactly up to 9813 characters of page name |
| Http.RequestPlainly | crawlThread.c:171-174 | the request letter by letter, sent with a NUL if the name has at most 9813 characters |
| Http.AskablePlainly | crawlThread.c:171-172 | a page can be asked for if it has no CR, LF and NUL and at most 9813 characters |
| Http.RequestReadPlainly | serverThread.c:34-57 | what the server makes of any first line followed by five others: too short up to 13 characters, else root directory and the line without its first four and last nine |
| Http.SendRequest | crawlThread.c:171-174 | the request and its NUL go out whole, or a prefix exactly if a write failed; the print overruns the buffer exactly for names of more than 9813 characters |
| Http.RecvGet | serverThread.c:32-59 | the method computes what the parsing function says, error returns included |
| Http.AnswerArrivesExactly | crawlThread.c:93-143 | the crawler recovers the code and the text the server printed, and leaves the rest, exactly if the text is shorter than INT_MAX |
| Http.AnswerRead | crawlThread.c:93-120 | what the crawler makes of an answer of any length: as much of the text as the cast of its length says, if that is neither negative nor INT_MAX |
| Http.SendAnswer | serverThread.c:76-134 | statistics for a readable file only, its size cast to an int; then header and text, or a prefix exactly if a write failed |
| Http.HeaderFits | serverThread.c:123-125 | the header always fits its buffer |
| Http.AnswerPlainly | serverThread.c:76-125 | the answer letter by letter, for a file that can be read, that cannot, and that is not there |
| Http.AnswerArrivesPlainly | crawlThread.c:93-143 | of it the crawler gets code and text, and leaves the rest |
| Http.FileArrives | serverThread.c:96-131 | a file without NULs, shorter than INT_MAX, arrives with 200 character for character |
| Http.AnswerReadPlainly | crawlThread.c:95-120 | what the crawler makes of any answer in the expected lines: its code from offsets 9 to 12, its length from offset 16 on, so much of what follows |
| Http.ReadAnswer | crawlThread.c:93-120 | the method computes what the parsing function says, error returns included, and reports an error exactly if a read failed |
| Http.ReadBody | crawlThread.c:109-120 | the part of it after the code, likewise |
| Http.CodeRead | crawlThread.c:98-106 | offsets 9 and 12 of each status line hold its code |
| Http.LengthRead | crawlThread.c:110-112 | offset 16 of the length line holds the length |
| Http.FetchRoundTrip | crawlThread.c:171-178 | request and answer together: the server looks under the path meant and the crawler gets that file's code and text |
| Http.FileArrivesWhole | crawlThread.c:121-127 | the crawler gets as many bytes as a file has exactly if it has no NUL and is shorter than INT_MAX |
| Http.BytesAgreeExactly | serverThread.c:104-105 | crawler and server count the same bytes exactly if the size of the file is from 0 to INT_MAX - 1 after its cast, and what follows its first NUL is a multiple of 2^32 |
| CrawlOverHttp.FetchGivesReply | crawlThread.c:145-183 | a fetch of a page that can be asked for gives the reply that the crawl machine's site gives |
| CrawlOverHttp.SiteOfPlainly | serverThread.c:76-112 | the site's reply for a page is code and text of the file under the root directory, as served |
| CrawlOverHttp.CrawlIsServed | crawlThread.c:197-205 | if the start can be asked for and no reachable link has a CR or is too long, every fetch in every run gives the reply that the machine assumes, unless its text is too long |
| CrawlOverHttp.CrawlOfFilesEndsExactly | crawlThread.c:60-67 | the crawl of a server's files can come to its end exactly if finitely many pages are reachable and each readable file among them has its anchors closed |
| CrawlOverHttp.LinksAreClean | crawlThread.c:60-71 | a link has no newline, no quote and only characters of its page |
| CrawlOverHttp.ReachableIsAskable | crawlThread.c:171 | every reachable page can be asked for exactly if the start can and no link of a reachable page has a CR or is too long |
| TextMap.AddFileToMaps | ergasia2/textmap.c:21-105 | the loader computes the loading function: the list of texts in order, N and bytes, or the error |
| TextMap.ReadLine | ergasia2/textmap.c:37-57 | one line and a NUL in a buffer that grows and is never overrun, each character counted |
| TextMap.LoadText | ergasia2/textmap.c:62-82 | walking the buffer: a text exactly if the line bears its number, and then the text after its first blank; no separator exactly if there is no blank |
| TextMap.LineLoadsExactly | ergasia2/textmap.c:62-82 | a line loads as a text exactly if what stands before its first blank reads as the number whose turn it is, and the text is what follows, up to a NUL |
| TextMap.FindBlank | ergasia2/textmap.c:62 | the first blank of the C string, or -1 |
| TextMap.LoaderRoundTrip | ergasia2/textmap.c:35-101 | lines printed with their numbers and any separators come back, all and in order |
| TextMap.LoadedExactly | ergasia2/textmap.c:67-86 | a file loads as given texts exactly if each of its lines bears its own number and its text |
| TextMap.LinesOfPlainly | ergasia2/textmap.c:47 | a newline ends a line and begins another |
| TextMap.LoadEndsPlainly | ergasia2/textmap.c:70-73 | loading ends with the file or the first line that fails |
| TextMap.FinalNewlineFails | ergasia2/textmap.c:47-63 | a newline at the end makes any file that would load fail for want of a separator |
| TextMap.LineRoundTrip | ergasia2/textmap.c:62-82 | a printed line is read back in its turn |
| TextMap.BytesAreNonNewlines | ergasia2/textmap.c:47-50 | for every file that loads, the bytes counted are its characters other than newlines |
| Tries.Trie.CreateTrieFromTextMap | ergasia2/trie.c:37-206 | from any trie, the lookups afterwards are those before with the text's words added as `Built` says; words and each text's count grow by the words found |
| Tries.Trie.AddLine | ergasia2/trie.c:55-200 | one line of it, with the automaton's variables at both ends |
| Tries.Trie.ReadChar | ergasia2/trie.c:58-164 | one character of it |
| Tries.Trie.FirstLetter | ergasia2/trie.c:95-106 | the first letter makes the root or stands on it without looking |
| Tries.Trie.AddLetter | ergasia2/trie.c:108-164 | any other letter leads to the node of the longer prefix, found or made; no lookup changes but for what a dropped continuation held |
| Tries.Trie.FindLetter | ergasia2/trie.c:122-162 | the walk along the siblings finds the letter or appends it |
| Tries.Trie.EndWord | ergasia2/trie.c:60-92 | both ends of a word: counts, index, flags and cursor |
| Tries.Trie.CountWord | ergasia2/trie.c:65-87 | finishing a word changes that word's lookup and no other |
| PostingLists.Bump | ergasia2/trie.c:71-87 | the scan of a linked posting list, in place, counts the line where it is listed, else appends it |
| Tries.TrieNode.AddOccurrence | ergasia2/trie.c:65-87 | a first posting, or the scan of the list |
| Tries.Trie.AddToNode | ergasia2/trie.c:65-87 | the list of one node grows, and that of no other |
| Tries.Trie.FreshTrieShape | ergasia2/trie.c:95-163 | at every character in a trie begun from nothing: every node is found by its spelling, the cursor spells the word so far, flag 1 means no continuation and 3 means one |
| Tries.Trie.SearchWordInTrie | ergasia2/trie.c:210-250 | the search returns the list that holds the lookup, none for the empty word and unknown words |
| TrieStore.LookupAfterIndex | ergasia2/trie.c:65-87 | setting the index at a word's node changes the answer for that word only |
| TrieStore.GrownBySibling | ergasia2/trie.c:137-142 | a node appended to its siblings changes no lookup, counts nothing and keeps the trie exact |
| TrieStore.GrownByFirstChild | ergasia2/trie.c:116-120 | likewise for a first child, after the root's continuation is dropped if it was the root |
| TrieStore.LookupAfterDrop | ergasia2/trie.c:118 | assigning over the root's continuation forgets exactly the longer words with the root's letter |
| TrieStore.SiblingsDiffer | ergasia2/trie.c:136-160 | in an exact trie siblings have distinct letters |
| TrieStore.FoundSpells | ergasia2/trie.c:213-233 | a walk that finds a node has spelled the node's own path |
| Words.ScanIsSplit | ergasia2/trie.c:56-199 | reading character by character, with both ends of a word, is the naive split |
| Words.SplitOnSpaceAndTab | ergasia2/trie.c:58 | the naive split is on space and tab |
| Words.CountIsMultiplicity | ergasia2/trie.c:76 | occurrences are the multiplicity of a word among the words |
| Postings.AddLinesCounts | ergasia2/trie.c:65-87 | posting by posting the list becomes the per-line frequencies, after those of other files |
| Postings.FrequenciesAscend | ergasia2/trie.c:74-84 | line numbers ascend strictly and each frequency is the word's count in its line |
| Postings.AddLinesTotal | ergasia2/trie.c:76 | a word's frequencies grow by its occurrences |
| IndexTheorems.FreshIndex | ergasia2/trie.c:52-203 | from no trie, a word's postings are one for each line that has it, in order, with its number of occurrences there under the naive split; none exactly if no line has it |
| IndexTheorems.FreshIndexShape | ergasia2/trie.c:60-91 | from no trie, the frequencies in the trie sum to the number of words, each node is where its spelling leads, siblings differ |
| IndexTheorems.LaterText | ergasia2/trie.c:95-120 | the exact postings of every word after a later text, under any file name; under one the word has no posting of, its per-line frequencies follow what it has kept |
| TextProgress.TakenPlainly | ergasia2/trie.c:95-106 | to a trie with a root, the first word of the text has the root's letter for its own, and all else is as it is |
| TextProgress.FirstWordPlainly | ergasia2/trie.c:95 | the first word is the first of the first line that has one |
| Words.ReplaceFirstPlainly | ergasia2/trie.c:95-106 | in a line whose letter passes for another, the first character that is neither space nor tab is replaced |
| IndexTheorems.UnionExactlyWhenSafe | ergasia2/trie.c:95-120 | a later text is simply added exactly if it has no word, or its first word has the root's letter and is that letter alone or no longer word with that letter has postings; without words it changes nothing |
| IndexTheorems.DogIsTakenForCog | ergasia2/trie.c:99-105 | an instance where it is not |
| Indexing.IndexAndSearch | ergasia2/trie.c:37-250 | builder and search together, from no trie: the word's per-line frequencies under the naive split, nothing exactly if no line has it |
| Indexing.IndexFile | ergasia2/worker.c:318-324 | loader, builder and search together: a file whose lines bear their numbers gives a word the per-line frequencies of its texts, any other gives nothing |
| Indexing.IndexAnother | ergasia2/worker.c:318-324 | builder on a trie that has a root: the text is simply added exactly if that is safe |
| Indexing.FileWithMost | ergasia2/worker.c:143-154 | search and ranking together: a file with the most of the word's postings; no result exactly if it has none |
| Indexing.FileWithFewest | ergasia2/worker.c:191-202 | likewise a file with the fewest |
| CountResults.CreateCountResults | ergasia2/trie.c:252-279 | the list built holds the tallies of the postings |
| CountResults.TalliedAccounts | ergasia2/trie.c:258-277 | one tally a file, in order of first appearance, counting its postings (not their frequencies), all together as many as there are postings |
| CountResults.PostingsOfPlainly | ergasia2/trie.c:258-277 | the number of a file's postings is the size of their set |
| CountResults.FilesOfPlainly | ergasia2/trie.c:258-277 | the files are those that have a posting, each once, in order of their first postings |
| CountResults.MaxFinder | ergasia2/trie.c:281-310 | head and last maximum change places, nothing else does, so the result is a permutation |
| CountResults.MinFinder | ergasia2/trie.c:312-340 | head and first minimum change places, nothing else does, so the result is a permutation |
| CountResults.MaxCount | ergasia2/worker.c:143-154 | for a word's postings: a file with the most of them and how many they are; no result exactly for no postings |
| CountResults.MinCount | ergasia2/worker.c:191-202 | likewise a file with the fewest |
| CountResults.HeadOfMaximum | ergasia2/trie.c:252-310 | after both steps the head names a file with the most postings |
| CountResults.HeadOfMinimum | ergasia2/trie.c:252-340 | and with the fewest |
| JobExecutor.Distribute | ergasia2/jobExecutor.c:177-204 | the pipe each worker reads gets its share of the paths in order and then the message to stop; no other pipe gets anything |
| JobExecutor.SendRound | ergasia2/jobExecutor.c:179-193 | one round, with its early end at the last path |
| JobExecutor.EachPathOnce | ergasia2/jobExecutor.c:178-195 | path t is in the share of worker t mod W, at place t / W, and nowhere else |
| JobExecutor.LoadsAreEven | ergasia2/jobExecutor.c:178-195 | no worker gets more than one path more than another |

## Left out

- Sockets as the system has them (connecting, accepting, host names), file access, clocks, sleeping and messages to the terminal. Streams are character sequences, a file is what the server finds under a path.
- Error paths that end a process, cancelling threads and shutting down. The machines cover runs before them. An answer with another code ends a run when it arrives, a page with an anchor that is not closed when the scan comes to it, and a request that is too short when it is read.
- Running out of memory, and the functions that free lists, tries and texts.
- Overflow of counters and of the lengths of lines: `counter`, `words`, `bytes`, `pagesDownloaded`, the sums of bytes and the like are unbounded; modelled are the casts to int of a file's size and of a text's length, and the sum of the announced length and one.
- Queues.Queue.constructor: for size 0 there is no ring to speak of; the first look at whether it is full divides by zero.
- Servers.Server.constructor: likewise for no threads.
- ServerOverHttp.ClientsOf: a client that sends a request and then does not take the answer, so that a write never returns, counts as not willing, but is not told from the others by what it sends.
- CrawlTheorems.CrawlEndsExactly: the server answers every request; a crawler whose answer never comes waits for ever. The reading over files takes it that the pages can be asked for (see CrawlOverHttp.ReachableIsAskable) and the texts are short enough.
- Tries.Trie.CreateTrieFromTextMap: does not compute the unused local total of words.
- TextMap.LoadText: the number of a line is read from exactly the characters before the separator; the original puts no NUL after them.
- TextMap.AddFileToMaps: starts from a file that could be opened; a text is made when its line has been read, not one line ahead.
- Sockets.InputStringFd: a read that would be repeated for ever at the end of a stream is reported as no line.
- Sockets.SocketRead: likewise, as stalled.
- Sockets.Socket.NextByte: after a CR one more character is read once, and the read may fail, which would leave the LF in the stream; in the model it does not fail.
- Http.SendAnswer: a length that is negative as an int is reported as a write that failed.
- Http.ReadAnswer: a length line shorter than its name, or a length that is negative or INT_MAX or more, where the original reads or allocates out of bounds, is reported as such. Its statistics are Crawlers.Crawler.CountAnswer.
- JobExecutor.Distribute: the pipes are the sequences of messages written to them; forking, signals and the workers' answers are not modelled. The pipe a worker reads is also the one the next worker would answer on (JobExecutor.PipesMatch), but nobody reads answers.
- Saving pages to files, making directories, the list of saved pages, the STATS commands, the SEARCH answers (search is not implemented by the original), reading the file of paths, and checking of arguments: no hard property.
- The page generator and the other shell scripts.
