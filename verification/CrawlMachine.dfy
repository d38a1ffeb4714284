/** The crawl as a state machine: the shared lists and counters, what each thread is doing, and one step for each
    stretch of code run under a lock. A thread waiting for the mutex is as free to go on as one that holds it. */
module CrawlMachine {
  import opened Wrappers
  import opened Conditions
  import opened LinkScan

  type Page = string

  /** What the server answers for a page, always the same. */
  datatype Reply = Reply(code: int, body: string)

  type Site = Page -> Reply

  /** Seeking: awake, about to look for a page. Sleeping: in the condition wait. Fetching: has recorded a page and is
      waiting for its answer. Scanning: `done` of the page's links have been offered. */
  datatype Thread = Seeking | Sleeping | Fetching(page: Page) | Scanning(page: Page, done: nat)

  datatype State = State(toAdd: seq<Page>, added: seq<Page>, workers: int, threads: seq<Thread>,
                         pagesDownloaded: int, bytesDownloaded: int)

  /** The start page is listed before there is any thread. */
  function Init(start: Page, numOfThreads: nat): State {
    State([start], [], 0, seq(numOfThreads, _ => Seeking), 0, 0)
  }

  /** Only a page that came with 200 is scanned. */
  function OutLinks(site: Site, page: Page): seq<Page> {
    if site(page).code == 200 then Links(site(page).body) else []
  }

  /** Those of them that are offered: from an anchor that is not closed on there are none, and the process ends. */
  function Offers(site: Site, page: Page): (links: seq<Page>)
    ensures |links| <= |OutLinks(site, page)|
  {
    if site(page).code == 200 then SafeLinks(site(page).body) else []
  }

  /** Any other code ends the process at once. */
  predicate Accepted(reply: Reply) {
    reply.code == 404 || reply.code == 403 || reply.code == 200
  }

  /** A thread gets through the whole answer. */
  predicate Answered(reply: Reply) {
    Accepted(reply) && (reply.code == 200 ==> Closed(reply.body))
  }

  lemma {:induction false} OffersAll(site: Site, page: Page)
    requires Answered(site(page))
    ensures Offers(site, page) == OutLinks(site, page)
  {
    SafeLinksAll(site(page).body);
  }

  function Weight(reply: Reply): int {
    if reply.code == 200 then 1 else 0
  }

  function Bytes(reply: Reply): int {
    if reply.code == 200 then |reply.body| else 0
  }

  /** In plain terms: a page that came with 200 links to the texts its lines give, any other page to nothing. */
  lemma {:induction false} OutLinksPlainly(site: Site, page: Page, lines: seq<string>, tail: string,
                                           texts: seq<seq<string>>)
    requires site(page).body == Joined(lines) + tail && |texts| == |lines|
    requires (forall i :: 0 <= i < |lines| ==> '\n' !in lines[i] && Gives(lines[i], texts[i])) && '\n' !in tail
    ensures OutLinks(site, page) == Offers(site, page) == if site(page).code == 200 then Flat(texts) else []
    ensures Answered(site(page)) <==> site(page).code == 200 || site(page).code == 403 || site(page).code == 404
  {
    PageLinks(lines, tail, texts);
    SafeLinksAll(site(page).body);
  }

  // ---- Steps ----

  datatype Step =
    | Take(t: nat)                      // look for a page: record one, or go to sleep
    | Receive(t: nat)                   // the answer is there: count it
    | Offer(t: nat, woken: set<nat>)    // offer one link: list it and signal, unless it is known
    | Finish(t: nat)                    // no link left: one worker less
    | Rouse(t: nat)                     // a spurious wake-up

  predicate Known(s: State, page: Page) {
    page in s.added || page in s.toAdd
  }

  predicate Enabled(site: Site, s: State, step: Step) {
    && step.t < |s.threads|
    && match step {
         case Take(t) => s.threads[t] == Seeking
         case Receive(t) => s.threads[t].Fetching? && Accepted(site(s.threads[t].page))
         case Offer(t, woken) =>
           && s.threads[t].Scanning?
           && s.threads[t].done < |Offers(site, s.threads[t].page)|
           && if Known(s, OutLinks(site, s.threads[t].page)[s.threads[t].done]) then woken == {}
              else Signalled(s.threads, Sleeping, woken)
         case Finish(t) =>
           && s.threads[t].Scanning?
           && s.threads[t].done == |OutLinks(site, s.threads[t].page)|
           && Answered(site(s.threads[t].page))
         case Rouse(t) => s.threads[t] == Sleeping
       }
  }

  /** Lines 189 to 203 of crawlThread.c: sleep while there is no page; else remove, record and count in one go. */
  function DoTake(s: State, t: nat): State
    requires t < |s.threads|
  {
    if s.toAdd == [] then s.(threads := s.threads[t := Sleeping])
    else
      s.(toAdd := s.toAdd[1..], added := [s.toAdd[0]] + s.added, workers := s.workers + 1,
         threads := s.threads[t := Fetching(s.toAdd[0])])
  }

  function DoReceive(site: Site, s: State, t: nat): State
    requires t < |s.threads| && s.threads[t].Fetching?
  {
    var reply := site(s.threads[t].page);
    s.(threads := s.threads[t := Scanning(s.threads[t].page, 0)],
       pagesDownloaded := s.pagesDownloaded + Weight(reply),
       bytesDownloaded := s.bytesDownloaded + Bytes(reply))
  }

  /** Lines 73 to 86: the next link is listed unless it is in one of the lists, and a sleeper is signalled. */
  function DoOffer(site: Site, s: State, t: nat, woken: set<nat>): State
    requires t < |s.threads| && s.threads[t].Scanning? && s.threads[t].done < |OutLinks(site, s.threads[t].page)|
  {
    var thread := s.threads[t];
    var link := OutLinks(site, thread.page)[thread.done];
    var on := Scanning(thread.page, thread.done + 1);
    if Known(s, link) then s.(threads := s.threads[t := on])
    else s.(toAdd := [link] + s.toAdd, threads := Wake(s.threads, Seeking, woken)[t := on])
  }

  function DoFinish(s: State, t: nat): State
    requires t < |s.threads|
  {
    s.(workers := s.workers - 1, threads := s.threads[t := Seeking])
  }

  function Do(site: Site, s: State, step: Step): State
    requires Enabled(site, s, step)
  {
    match step
    case Take(t) => DoTake(s, t)
    case Receive(t) => DoReceive(site, s, t)
    case Offer(t, woken) => DoOffer(site, s, t, woken)
    case Finish(t) => DoFinish(s, t)
    case Rouse(t) => s.(threads := s.threads[t := Seeking])
  }

  /** A run: each step enabled when it is taken. */
  function Run(site: Site, s: State, steps: seq<Step>): Option<State> {
    if steps == [] then Some(s)
    else
      var before := Run(site, s, steps[..|steps| - 1]);
      var step := steps[|steps| - 1];
      if before.Some? && Enabled(site, before.value, step) then Some(Do(site, before.value, step)) else None
  }

  /** What SEARCH tests under the lock before it says that the crawl is over. */
  predicate Quiet(s: State) {
    s.workers == 0 && s.toAdd == []
  }

  /** Counts the spurious wake-ups. */
  function Rousing(step: Step): int {
    if step.Rouse? then 1 else 0
  }

  // ---- Kinds of thread ----

  predicate IsBusy(thread: Thread) {
    thread.Fetching? || thread.Scanning?
  }

  function Busy(thread: Thread): int {
    if IsBusy(thread) then 1 else 0
  }

  function Awaiting(thread: Thread): int {
    if thread == Seeking then 1 else 0
  }

  /** Pages recorded but not counted yet. */
  function PendingPages(site: Site): Thread -> int {
    (thread: Thread) => if thread.Fetching? then Weight(site(thread.page)) else 0
  }

  function PendingBytes(site: Site): Thread -> int {
    (thread: Thread) => if thread.Fetching? then Bytes(site(thread.page)) else 0
  }

  function PageWeight(site: Site): Page -> int {
    (page: Page) => Weight(site(page))
  }

  function PageBytes(site: Site): Page -> int {
    (page: Page) => Bytes(site(page))
  }
}
