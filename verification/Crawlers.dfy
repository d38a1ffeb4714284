/** The crawler's globals, and the stretches of code its threads run on them under the lock. */
module Crawlers {
  import opened Wrappers
  import opened Conditions
  import opened CrawlMachine
  import opened PageLists

  class Crawler {
    const pagesToAdd: PageList
    const pagesAdded: PageList
    var workers: int
    var pagesDownloaded: int
    var bytesDownloaded: int
    /** Where each thread is in its code. */
    ghost var threads: seq<Thread>

    ghost predicate Valid()
      reads this, pagesToAdd, pagesAdded
    {
      pagesToAdd != pagesAdded && pagesToAdd.Valid() && pagesAdded.Valid()
    }

    ghost function View(): State
      requires Valid()
      reads this, pagesToAdd, pagesAdded
    {
      State(pagesToAdd.Contents(), pagesAdded.Contents(), workers, threads, pagesDownloaded, bytesDownloaded)
    }

    /** The main thread before and while it makes the others. */
    constructor (startingUrl: Page, numOfThreads: nat)
      ensures Valid() && fresh(pagesToAdd) && fresh(pagesAdded)
      ensures View() == Init(startingUrl, numOfThreads)
      ensures pagesToAdd.Contents() == [startingUrl] && pagesAdded.Contents() == [] && workers == 0
    {
      pagesToAdd := new PageList();
      pagesAdded := new PageList();
      workers, pagesDownloaded, bytesDownloaded := 0, 0, 0;
      new;
      pagesToAdd.Add(startingUrl);
      threads := seq(numOfThreads, _ => Seeking);
    }

    /** From getting the lock to sleeping on the condition or to letting the lock go. */
    method LookForPage(ghost t: nat) returns (page: Option<Page>)
      requires Valid() && t < |threads| && threads[t] == Seeking
      modifies this, pagesToAdd, pagesAdded
      ensures Valid() && View() == DoTake(old(View()), t)
      ensures var listed := old(pagesToAdd.Contents());
              if page == None then listed == [] && pagesAdded.Contents() == old(pagesAdded.Contents())
              else listed == [page.value] + pagesToAdd.Contents()
                   && pagesAdded.Contents() == [page.value] + old(pagesAdded.Contents())
      ensures workers == old(workers) + if page == None then 0 else 1
      ensures threads[t] == if page == None then Sleeping else Fetching(page.value)
    {
      var empty := pagesToAdd.Empty();
      if empty {
        threads := threads[t := Sleeping];
        return None;
      }
      var removed := pagesToAdd.Rem();
      pagesAdded.Add(removed);
      workers := workers + 1;
      threads := threads[t := Fetching(removed)];
      page := Some(removed);
    }

    /** The answer is complete: its statistics. */
    method CountAnswer(code: int, contentSize: int, ghost site: Site, ghost t: nat)
      requires Valid() && t < |threads| && threads[t].Fetching?
      requires code == site(threads[t].page).code && contentSize == |site(threads[t].page).body|
      requires code == 404 || code == 403 || code == 200
      modifies this
      ensures Enabled(site, old(View()), Receive(t))
      ensures Valid() && View() == DoReceive(site, old(View()), t)
      ensures pagesDownloaded == old(pagesDownloaded) + if code == 200 then 1 else 0
      ensures bytesDownloaded == old(bytesDownloaded) + if code == 200 then contentSize else 0
    {
      threads := threads[t := Scanning(threads[t].page, 0)];
      if code == 200 {
        pagesDownloaded := pagesDownloaded + 1;
        bytesDownloaded := bytesDownloaded + contentSize;
      }
    }

    /** pthread_cond_signal: one sleeper or more go on to look for a page, if there are any. */
    method SignalNonEmpty() returns (ghost woken: set<nat>)
      modifies this`threads
      ensures Signalled(old(threads), Sleeping, woken)
      ensures threads == Wake(old(threads), Seeking, woken)
    {
      ghost var sleepers := Sleepers(threads, Sleeping);
      woken :| Signalled(threads, Sleeping, woken);
      threads := Wake(threads, Seeking, woken);
    }

    /** Listing one link, and signalling, unless it is listed already. */
    method OfferLink(link: Page, ghost site: Site, ghost t: nat) returns (added: bool, ghost woken: set<nat>)
      requires Valid() && t < |threads| && threads[t].Scanning?
      requires threads[t].done < |Offers(site, threads[t].page)|
      requires link == OutLinks(site, threads[t].page)[threads[t].done]
      modifies this, pagesToAdd
      ensures Valid() && Enabled(site, old(View()), Offer(t, woken)) && View() == DoOffer(site, old(View()), t, woken)
      ensures added <==> link !in old(pagesAdded.Contents()) && link !in old(pagesToAdd.Contents())
      ensures pagesToAdd.Contents() == (if added then [link] else []) + old(pagesToAdd.Contents())
    {
      hide OutLinks, Offers, Wake, Signalled;
      ghost var on := Scanning(threads[t].page, threads[t].done + 1);
      woken := {};
      var known := pagesAdded.Check(link);
      if !known {
        known := pagesToAdd.Check(link);
      }
      if !known {
        pagesToAdd.Add(link);
        woken := SignalNonEmpty();
      }
      threads := threads[t := on];
      added := !known;
    }

    /** After the last link of a page that did not end the process. */
    method FinishPage(ghost site: Site, ghost t: nat)
      requires Valid() && t < |threads| && threads[t].Scanning?
      requires threads[t].done == |OutLinks(site, threads[t].page)| && Answered(site(threads[t].page))
      modifies this
      ensures Enabled(site, old(View()), Finish(t)) && workers == old(workers) - 1
      ensures Valid() && View() == DoFinish(old(View()), t)
    {
      workers := workers - 1;
      threads := threads[t := Seeking];
    }

    /** What SEARCH asks under the lock. */
    method IsOver() returns (over: bool)
      requires Valid()
      ensures over <==> Quiet(View())
      ensures over <==> workers == 0 && pagesToAdd.Contents() == []
    {
      var empty := pagesToAdd.Empty();
      over := workers == 0 && empty;
    }
  }
}
