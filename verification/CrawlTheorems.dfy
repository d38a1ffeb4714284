/** What the invariants of the crawl amount to over whole runs. */
module CrawlTheorems {
  import opened Wrappers
  import opened Sums
  import opened Conditions
  import opened CrawlMachine
  import opened CrawlInvariants

  // ---- When the detector fires ----

  lemma {:induction false} NobodyBusy(s: State)
    requires Counted(s) && s.workers == 0
    ensures forall t :: 0 <= t < |s.threads| ==> !IsBusy(s.threads[t])
  {
    forall t | 0 <= t < |s.threads| ensures !IsBusy(s.threads[t]) {
      SumAtLeast(s.threads, t, Busy);
    }
  }

  lemma {:induction false} QuietIsClosed(site: Site, start: Page, s: State)
    requires Inv(site, start, s) && Quiet(s)
    ensures NoDup(s.added)
    ensures forall page :: page in s.added <==> Reachable(site, start, page)
  {
    NobodyBusy(s);
    forall p, q | p in s.added && q in OutLinks(site, p) ensures q in s.added {
      assert !InProgress(s, p) && AllKnown(site, s, p);
    }
    forall page ensures page in s.added <==> Reachable(site, start, page) {
      assert page in s.added ==> Known(s, page);
      if Reachable(site, start, page) {
        ReachableClosed(site, start, s.added, page);
      }
    }
  }

  /** Whenever SEARCH finds the crawl over, after any run of any number of threads, the recorded pages are the pages
      one can reach from the start, each once. */
  lemma {:induction false} CrawlIsExact(site: Site, start: Page, n: nat, steps: seq<Step>, s: State)
    requires Run(site, Init(start, n), steps) == Some(s) && Quiet(s)
    ensures NoDup(s.added)
    ensures forall page :: page in s.added <==> Reachable(site, start, page)
  {
    InvAlways(site, start, n, steps);
    QuietIsClosed(site, start, s);
  }

  ghost predicate SameCrawl(s: State, s': State) {
    && s'.toAdd == s.toAdd && s'.added == s.added && s'.workers == s.workers
    && s'.pagesDownloaded == s.pagesDownloaded && s'.bytesDownloaded == s.bytesDownloaded
  }

  /** Once over, the crawl stays over: no later run changes the lists or the counters. */
  lemma {:induction false} QuietIsStable(site: Site, start: Page, s: State, more: seq<Step>)
    requires Inv(site, start, s) && Quiet(s) && Run(site, s, more).Some?
    ensures var s' := Run(site, s, more).value; Inv(site, start, s') && SameCrawl(s, s')
  {
    if more != [] {
      var before, step := more[..|more| - 1], more[|more| - 1];
      QuietIsStable(site, start, s, before);
      var s1 := Run(site, s, before).value;
      NobodyBusy(s1);
      InvKept(site, start, s1, step);
    }
  }

  /** What has been counted by then, whatever the order the pages are listed in. */
  lemma {:induction false} QuietTotals(site: Site, start: Page, s: State, pages: seq<Page>)
    requires Inv(site, start, s) && Quiet(s)
    requires NoDup(pages) && forall page :: page in pages <==> Reachable(site, start, page)
    ensures s.pagesDownloaded == Sum(pages, PageWeight(site))
    ensures s.bytesDownloaded == Sum(pages, PageBytes(site))
  {
    QuietIsClosed(site, start, s);
    NobodyBusy(s);
    SumConstant(s.threads, PendingPages(site), 0);
    SumConstant(s.threads, PendingBytes(site), 0);
    SumOfSame(s.added, pages, PageWeight(site));
    SumOfSame(s.added, pages, PageBytes(site));
  }

  /** In plain terms: one page for each that can be reached and came with 200, and the length of its text. */
  lemma {:induction false} DownloadsPlainly(site: Site, start: Page, s: State, pages: seq<Page>)
    requires Inv(site, start, s) && Quiet(s)
    requires NoDup(pages) && forall page :: page in pages <==> Reachable(site, start, page) && site(page).code == 200
    ensures s.pagesDownloaded == |pages| == |set page | page in s.added && site(page).code == 200|
    ensures s.bytesDownloaded == Sum(pages, (page: Page) => |site(page).body|)
  {
    QuietIsClosed(site, start, s);
    QuietTotals(site, start, s, s.added);
    SumOfPart(s.added, pages, PageWeight(site), (page: Page) => 1);
    SumConstant(pages, (page: Page) => 1, 1);
    SumOfPart(s.added, pages, PageBytes(site), (page: Page) => |site(page).body|);
    SizeOfSet(pages);
    assert (set page | page in s.added && site(page).code == 200) == (set page | page in pages);
  }

  /** Two crawls of one site that are over agree, however many threads they had and however these were scheduled. */
  lemma {:induction false} CrawlsAgree(site: Site, start: Page, n1: nat, n2: nat, steps1: seq<Step>, steps2: seq<Step>,
                                       s1: State, s2: State)
    requires Run(site, Init(start, n1), steps1) == Some(s1) && Quiet(s1)
    requires Run(site, Init(start, n2), steps2) == Some(s2) && Quiet(s2)
    ensures forall page :: page in s1.added <==> page in s2.added
    ensures s1.pagesDownloaded == s2.pagesDownloaded && s1.bytesDownloaded == s2.bytesDownloaded
  {
    CrawlIsExact(site, start, n1, steps1, s1);
    CrawlIsExact(site, start, n2, steps2, s2);
    InvAlways(site, start, n1, steps1);
    InvAlways(site, start, n2, steps2);
    QuietTotals(site, start, s1, s1.added);
    QuietTotals(site, start, s2, s1.added);
  }

  // ---- No lost work ----

  /** A listed page never waits for sleepers only. */
  lemma {:induction false} NeverStranded(site: Site, start: Page, n: nat, steps: seq<Step>, s: State)
    requires Run(site, Init(start, n), steps) == Some(s) && n > 0
    ensures Sleeping in s.threads ==> |s.toAdd| <= Sum(s.threads, Awaiting)
    ensures s.toAdd != [] ==> exists t :: 0 <= t < |s.threads| && s.threads[t] != Sleeping
  {
    InvAlways(site, start, n, steps);
    ThreadsKept(site, start, n, steps);
    if forall t :: 0 <= t < |s.threads| ==> s.threads[t] == Sleeping {
      SumConstant(s.threads, Awaiting, 0);
      assert s.threads[0] == Sleeping;
      assert s.toAdd == [];
    }
  }

  lemma {:induction false} ThreadsKept(site: Site, start: Page, n: nat, steps: seq<Step>)
    requires Run(site, Init(start, n), steps).Some?
    ensures |Run(site, Init(start, n), steps).value.threads| == n
  {
    if steps != [] {
      ThreadsKept(site, start, n, steps[..|steps| - 1]);
    }
  }

  // ---- How long it takes ----

  /** A page is removed once, each of its links is offered once, and it is finished once. */
  function Cost(site: Site): Page -> int {
    (page: Page) => |OutLinks(site, page)| + 2
  }

  /** What a thread has left to do with its page. */
  function Left(site: Site): Thread -> int {
    (thread: Thread) =>
      match thread
      case Seeking => 0
      case Sleeping => 0
      case Fetching(page) => |OutLinks(site, page)| + 1
      case Scanning(page, done) => |OutLinks(site, page)| - done + 1
  }

  predicate Productive(s: State, step: Step) {
    step.Offer? || step.Finish? || (step.Take? && s.toAdd != [])
  }

  /** The work ahead, when `pages` are all the pages one can reach. */
  function Ahead(site: Site, pages: seq<Page>, s: State): int {
    Sum(pages, Cost(site)) - Sum(s.added, Cost(site)) + Sum(s.threads, Left(site))
  }

  /** Productive steps do one unit of the work ahead; no other step changes it. */
  lemma {:induction false} StepWorks(site: Site, pages: seq<Page>, s: State, step: Step)
    requires Enabled(site, s, step)
    ensures Ahead(site, pages, Do(site, s, step)) == Ahead(site, pages, s) - if Productive(s, step) then 1 else 0
  {
    hide OutLinks, Offers, Known, Wake, Signalled;
    match step {
      case Take(t) =>
        SumUpdate(s.threads, t, Do(site, s, step).threads[t], Left(site));
        if s.toAdd != [] {
          SumCons(s.toAdd[0], s.added, Cost(site));
        }
      case Offer(t, woken) =>
        OfferSums(site, s, t, woken, Left(site));
      case _ =>
        SumUpdate(s.threads, step.t, Do(site, s, step).threads[step.t], Left(site));
    }
  }

  lemma {:induction false} AheadNonNegative(site: Site, start: Page, pages: seq<Page>, s: State)
    requires Inv(site, start, s)
    requires NoDup(pages) && forall page :: Reachable(site, start, page) ==> page in pages
    ensures Ahead(site, pages, s) >= Sum(s.threads, Left(site)) >= 0
  {
    forall page | page in s.added ensures page in pages {
      assert Known(s, page);
    }
    SumOfSome(s.added, pages, Cost(site));
    SumNonNegative(s.threads, Left(site));
  }

  /** The removals, offers and finishes of a run. */
  function ProductiveSteps(site: Site, s: State, steps: seq<Step>): nat
    requires Run(site, s, steps).Some?
  {
    if steps == [] then 0
    else
      var before := steps[..|steps| - 1];
      ProductiveSteps(site, s, before)
      + if Productive(Run(site, s, before).value, steps[|steps| - 1]) then 1 else 0
  }

  lemma {:induction false} RunWorks(site: Site, pages: seq<Page>, s: State, steps: seq<Step>)
    requires Run(site, s, steps).Some?
    ensures Ahead(site, pages, Run(site, s, steps).value) == Ahead(site, pages, s) - ProductiveSteps(site, s, steps)
  {
    if steps != [] {
      var before := steps[..|steps| - 1];
      RunWorks(site, pages, s, before);
      StepWorks(site, pages, Run(site, s, before).value, steps[|steps| - 1]);
    }
  }

  /** A crawl takes at most one removal, one offer per link and one finish for each page one can reach, and exactly
      that many by the time it is over. */
  lemma {:induction false} CrawlWork(site: Site, start: Page, n: nat, steps: seq<Step>, s: State, pages: seq<Page>)
    requires Run(site, Init(start, n), steps) == Some(s)
    requires NoDup(pages) && forall page :: page in pages <==> Reachable(site, start, page)
    ensures ProductiveSteps(site, Init(start, n), steps) <= Sum(pages, Cost(site))
    ensures Quiet(s) ==> ProductiveSteps(site, Init(start, n), steps) == Sum(pages, Cost(site))
  {
    var s0 := Init(start, n);
    RunWorks(site, pages, s0, steps);
    SumConstant(s0.threads, Left(site), 0);
    InvAlways(site, start, n, steps);
    AheadNonNegative(site, start, pages, s);
    if Quiet(s) {
      QuietIsClosed(site, start, s);
      NobodyBusy(s);
      SumConstant(s.threads, Left(site), 0);
      SumOfSame(s.added, pages, Cost(site));
    }
  }

  // ---- That it comes to an end ----

  function Hungry(thread: Thread): int {
    if thread.Fetching? || thread == Seeking then 1 else 0
  }

  /** Every step but a spurious wake-up makes this smaller, and a spurious wake-up adds one. */
  function Rank(site: Site, pages: seq<Page>, s: State): int {
    (|s.threads| + 2) * Ahead(site, pages, s) + Sum(s.threads, Hungry)
  }

  lemma {:induction false} HungryOffer(site: Site, s: State, t: nat, woken: set<nat>)
    requires Enabled(site, s, Offer(t, woken))
    ensures Sum(DoOffer(site, s, t, woken).threads, Hungry) - Sum(s.threads, Hungry) <= |s.threads|
  {
    hide OutLinks, Offers, Known, Signalled;
    var thread := Scanning(s.threads[t].page, s.threads[t].done + 1);
    if Known(s, OutLinks(site, s.threads[t].page)[s.threads[t].done]) {
      SumUpdate(s.threads, t, thread, Hungry);
    } else {
      WakeGrows(s.threads, Sleeping, Seeking, woken, Hungry);
      SumUpdate(Wake(s.threads, Seeking, woken), t, thread, Hungry);
    }
  }

  lemma {:induction false} HungryStep(site: Site, s: State, step: Step)
    requires Enabled(site, s, step)
    ensures var change := Sum(Do(site, s, step).threads, Hungry) - Sum(s.threads, Hungry);
            && (Productive(s, step) ==> change <= |s.threads| + 1)
            && (step.Rouse? ==> change == 1)
            && (!Productive(s, step) && !step.Rouse? ==> change == -1)
  {
    hide OutLinks, Offers, Known, Signalled, DoOffer;
    match step {
      case Offer(t, woken) =>
        HungryOffer(site, s, t, woken);
      case _ =>
        SumUpdate(s.threads, step.t, Do(site, s, step).threads[step.t], Hungry);
    }
  }

  lemma {:induction false} SameThreads(site: Site, s: State, step: Step)
    requires Enabled(site, s, step)
    ensures |Do(site, s, step).threads| == |s.threads|
  {
  }

  lemma {:induction false} RankStep(site: Site, pages: seq<Page>, s: State, step: Step)
    requires Enabled(site, s, step)
    ensures Rank(site, pages, Do(site, s, step)) <= Rank(site, pages, s) + if step.Rouse? then 1 else -1
  {
    hide Ahead, Do, Enabled;
    StepWorks(site, pages, s, step);
    HungryStep(site, s, step);
    SameThreads(site, s, step);
    var k, a := |s.threads| + 2, Ahead(site, pages, s);
    assert k * (a - 1) == k * a - k;
  }

  lemma {:induction false} RankRun(site: Site, pages: seq<Page>, s: State, steps: seq<Step>)
    requires Run(site, s, steps).Some?
    ensures Rank(site, pages, Run(site, s, steps).value) <= Rank(site, pages, s) - |steps| + 2 * Sum(steps, Rousing)
  {
    if steps != [] {
      var before := steps[..|steps| - 1];
      RankRun(site, pages, s, before);
      RankStep(site, pages, Run(site, s, before).value, steps[|steps| - 1]);
    }
  }

  lemma {:induction false} RankStart(site: Site, start: Page, n: nat, pages: seq<Page>)
    ensures Rank(site, pages, Init(start, n)) == (n + 2) * Sum(pages, Cost(site)) + n
  {
    var s := Init(start, n);
    SumConstant(s.threads, Left(site), 0);
    SumConstant(s.threads, Hungry, 1);
    assert Ahead(site, pages, s) == Sum(pages, Cost(site));
  }

  lemma {:induction false} RankNonNegative(site: Site, start: Page, pages: seq<Page>, s: State)
    requires Inv(site, start, s)
    requires NoDup(pages) && forall page :: Reachable(site, start, page) ==> page in pages
    ensures Rank(site, pages, s) >= 0
  {
    hide Ahead, Inv;
    AheadNonNegative(site, start, pages, s);
    SumNonNegative(s.threads, Hungry);
    Product(|s.threads| + 2, Ahead(site, pages, s));
  }

  lemma {:induction false} Product(k: int, a: int)
    requires k >= 0 && a >= 0
    ensures k * a >= 0
  {
  }

  /** Spurious wake-ups aside, a crawl of finitely many pages has only so many steps. */
  lemma {:induction false} CrawlIsBounded(site: Site, start: Page, n: nat, steps: seq<Step>, pages: seq<Page>)
    requires Run(site, Init(start, n), steps).Some?
    requires NoDup(pages) && forall page :: Reachable(site, start, page) ==> page in pages
    ensures |steps| - Sum(steps, Rousing) <= (n + 2) * Sum(pages, Cost(site)) + n + Sum(steps, Rousing)
  {
    hide Rank, Inv;
    RankRun(site, pages, Init(start, n), steps);
    RankStart(site, start, n, pages);
    InvAlways(site, start, n, steps);
    RankNonNegative(site, start, pages, Run(site, Init(start, n), steps).value);
  }

  lemma {:induction false} AwakeGoesOn(site: Site, s: State, t: nat)
    requires Covered(site, s) && t < |s.threads| && s.threads[t] != Sleeping
    requires forall page :: page in s.added ==> Answered(site(page))
    ensures exists step: Step :: !step.Rouse? && Enabled(site, s, step)
  {
    match s.threads[t] {
      case Seeking =>
        assert Enabled(site, s, Take(t));
      case Fetching(page) =>
        assert Enabled(site, s, Receive(t));
      case Scanning(page, done) =>
        if done == |OutLinks(site, page)| {
          assert Enabled(site, s, Finish(t));
        } else if Known(s, OutLinks(site, page)[done]) {
          OffersAll(site, page);
          assert Enabled(site, s, Offer(t, {}));
        } else {
          OffersAll(site, page);
          assert Enabled(site, s, Offer(t, Sleepers(s.threads, Sleeping)));
        }
    }
  }

  /** A crawl that is not over can go on without a spurious wake-up, if every page recorded so far is answered. */
  lemma {:induction false} CrawlGoesOn(site: Site, start: Page, n: nat, steps: seq<Step>, s: State)
    requires Run(site, Init(start, n), steps) == Some(s) && n > 0 && !Quiet(s)
    requires forall page :: page in s.added ==> Answered(site(page))
    ensures exists step: Step :: !step.Rouse? && Enabled(site, s, step)
  {
    InvAlways(site, start, n, steps);
    ThreadsKept(site, start, n, steps);
    if forall t :: 0 <= t < |s.threads| ==> s.threads[t] == Sleeping {
      AllAsleep(s);
    }
    var t :| 0 <= t < |s.threads| && s.threads[t] != Sleeping;
    AwakeGoesOn(site, s, t);
  }

  lemma {:induction false} AllAsleep(s: State)
    requires Counted(s) && NoLostWork(s) && s.threads != []
    requires forall t :: 0 <= t < |s.threads| ==> s.threads[t] == Sleeping
    ensures Quiet(s)
  {
    SumConstant(s.threads, Busy, 0);
    SumConstant(s.threads, Awaiting, 0);
    assert s.threads[0] == Sleeping;
  }

  // ---- When it comes to a good end ----

  /** A thread that has recorded a page gets through its answer or stays with it. */
  ghost predicate Resolved(site: Site, s: State) {
    forall page :: page in s.added ==> Answered(site(page)) || InProgress(s, page)
  }

  lemma {:induction false} StillInProgress(site: Site, s: State, step: Step, page: Page)
    requires Enabled(site, s, step) && InProgress(s, page) && !Answered(site(page))
    ensures InProgress(Do(site, s, step), page)
  {
    hide OutLinks, Offers, Known, Answered;
    var s' := Do(site, s, step);
    var u :| 0 <= u < |s.threads| && IsBusy(s.threads[u]) && s.threads[u].page == page;
    assert IsBusy(s'.threads[u]) && s'.threads[u].page == page;
  }

  lemma {:induction false} ResolvedKept(site: Site, s: State, step: Step)
    requires Resolved(site, s) && Enabled(site, s, step)
    ensures Resolved(site, Do(site, s, step))
  {
    hide OutLinks, Offers, Known, Answered;
    var s' := Do(site, s, step);
    forall page | page in s'.added ensures Answered(site(page)) || InProgress(s', page) {
      if page in s.added {
        if !Answered(site(page)) {
          StillInProgress(site, s, step, page);
        }
      } else {
        assert step.Take? && s'.threads[step.t] == Fetching(page);
      }
    }
  }

  lemma {:induction false} ResolvedAlways(site: Site, start: Page, n: nat, steps: seq<Step>)
    requires Run(site, Init(start, n), steps).Some?
    ensures Resolved(site, Run(site, Init(start, n), steps).value)
  {
    if steps != [] {
      var before := steps[..|steps| - 1];
      ResolvedAlways(site, start, n, before);
      ResolvedKept(site, Run(site, Init(start, n), before).value, steps[|steps| - 1]);
    }
  }

  /** A run at whose end the detector fires. */
  ghost predicate Ends(site: Site, start: Page, n: nat, steps: seq<Step>) {
    var s := Run(site, Init(start, n), steps);
    s.Some? && Quiet(s.value)
  }

  /** Finitely many pages can be reached. */
  ghost predicate Lists(site: Site, start: Page, pages: seq<Page>) {
    NoDup(pages) && forall page :: Reachable(site, start, page) ==> page in pages
  }

  ghost predicate AllAnswered(site: Site, start: Page) {
    forall page :: Reachable(site, start, page) ==> Answered(site(page))
  }

  lemma {:induction false} EndedAnswered(site: Site, start: Page, n: nat, steps: seq<Step>, s: State)
    requires Run(site, Init(start, n), steps) == Some(s) && Quiet(s)
    ensures AllAnswered(site, start) && Lists(site, start, s.added)
  {
    CrawlIsExact(site, start, n, steps, s);
    InvAlways(site, start, n, steps);
    ResolvedAlways(site, start, n, steps);
    NobodyBusy(s);
  }

  lemma {:induction false} GetsOver(site: Site, start: Page, n: nat, pages: seq<Page>, steps: seq<Step>, s: State)
    returns (more: seq<Step>)
    requires Run(site, Init(start, n), steps) == Some(s) && n > 0
    requires AllAnswered(site, start) && Lists(site, start, pages)
    ensures Ends(site, start, n, more)
    decreases Rank(site, pages, s)
  {
    hide Rank, Do, Enabled;
    more := steps;
    if !Quiet(s) {
      InvAlways(site, start, n, steps);
      RankNonNegative(site, start, pages, s);
      forall page | page in s.added ensures Answered(site(page)) {
        assert Known(s, page);
      }
      CrawlGoesOn(site, start, n, steps, s);
      var step: Step :| !step.Rouse? && Enabled(site, s, step);
      RankStep(site, pages, s, step);
      assert (steps + [step])[..|steps|] == steps;
      more := GetsOver(site, start, n, pages, steps + [step], Do(site, s, step));
    }
  }

  /** The detector can fire exactly if finitely many pages can be reached and each of them is answered. */
  lemma {:induction false} CrawlEndsExactly(site: Site, start: Page, n: nat)
    requires n > 0
    ensures (exists steps :: Ends(site, start, n, steps)) <==>
            AllAnswered(site, start) && exists pages :: Lists(site, start, pages)
  {
    hide AllAnswered, Lists;
    if steps :| Ends(site, start, n, steps) {
      EndedAnswered(site, start, n, steps, Run(site, Init(start, n), steps).value);
    }
    if AllAnswered(site, start) && exists pages :: Lists(site, start, pages) {
      var pages :| Lists(site, start, pages);
      var steps := GetsOver(site, start, n, pages, [], Init(start, n));
    }
  }
}
