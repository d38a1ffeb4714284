/** What every step of the crawl keeps. */
module CrawlInvariants {
  import opened Sums
  import opened Conditions
  import opened CrawlMachine

  // ---- Reachability ----

  ghost predicate IsPath(site: Site, path: seq<Page>) {
    forall i :: 0 <= i < |path| - 1 ==> path[i + 1] in OutLinks(site, path[i])
  }

  /** One can come to `page` from `start` by following links. */
  ghost predicate Reachable(site: Site, start: Page, page: Page) {
    exists path :: IsPath(site, path) && |path| > 0 && path[0] == start && path[|path| - 1] == page
  }

  lemma {:induction false} ReachableStart(site: Site, start: Page)
    ensures Reachable(site, start, start)
  {
    assert IsPath(site, [start]);
  }

  lemma {:induction false} ReachableNext(site: Site, start: Page, page: Page, link: Page)
    requires Reachable(site, start, page) && link in OutLinks(site, page)
    ensures Reachable(site, start, link)
  {
    var path :| IsPath(site, path) && |path| > 0 && path[0] == start && path[|path| - 1] == page;
    var longer := path + [link];
    forall i | 0 <= i < |longer| - 1 ensures longer[i + 1] in OutLinks(site, longer[i]) {
      if i < |path| - 1 {
        assert path[i + 1] in OutLinks(site, path[i]);
      }
    }
    assert longer[0] == start && longer[|longer| - 1] == link;
  }

  /** What holds of the start and passes along links holds of everything reachable. */
  lemma {:induction false} ReachableClosed(site: Site, start: Page, pages: seq<Page>, page: Page)
    requires start in pages
    requires forall p, q :: p in pages && q in OutLinks(site, p) ==> q in pages
    requires Reachable(site, start, page)
    ensures page in pages
  {
    var path :| IsPath(site, path) && |path| > 0 && path[0] == start && path[|path| - 1] == page;
    var i := 0;
    while i < |path| - 1
      invariant 0 <= i < |path| && path[i] in pages
    {
      i := i + 1;
    }
  }

  // ---- The lists ----

  /** No page is listed twice, within a list or across both; the start is listed; only reachable pages are. */
  ghost predicate Listed(site: Site, start: Page, s: State) {
    && NoDup(s.toAdd)
    && NoDup(s.added)
    && (forall page :: page in s.toAdd ==> page !in s.added)
    && Known(s, start)
    && (forall page :: Known(s, page) ==> Reachable(site, start, page))
  }

  /** Each busy thread has a recorded page of its own, the links before its position are known, and so are all links
      of a recorded page that nobody is busy with. */
  ghost predicate Covered(site: Site, s: State) {
    && (forall t :: 0 <= t < |s.threads| && IsBusy(s.threads[t]) ==> s.threads[t].page in s.added)
    && (forall t, u :: 0 <= t < u < |s.threads| && IsBusy(s.threads[t]) && IsBusy(s.threads[u]) ==>
          s.threads[t].page != s.threads[u].page)
    && (forall t :: 0 <= t < |s.threads| && s.threads[t].Scanning? ==>
          s.threads[t].done <= |OutLinks(site, s.threads[t].page)|
          && forall k :: 0 <= k < s.threads[t].done ==> Known(s, OutLinks(site, s.threads[t].page)[k]))
    && (forall page :: page in s.added && !InProgress(s, page) ==> AllKnown(site, s, page))
  }

  ghost predicate InProgress(s: State, page: Page) {
    exists t :: 0 <= t < |s.threads| && IsBusy(s.threads[t]) && s.threads[t].page == page
  }

  ghost predicate AllKnown(site: Site, s: State, page: Page) {
    forall link :: link in OutLinks(site, page) ==> Known(s, link)
  }

  /** `workers` counts the busy threads. */
  ghost predicate Counted(s: State) {
    s.workers == Sum(s.threads, Busy)
  }

  /** Pages and bytes counted are those of the recorded pages that came with 200, less the answers still awaited. */
  ghost predicate Measured(site: Site, s: State) {
    && s.pagesDownloaded + Sum(s.threads, PendingPages(site)) == Sum(s.added, PageWeight(site))
    && s.bytesDownloaded + Sum(s.threads, PendingBytes(site)) == Sum(s.added, PageBytes(site))
  }

  /** While a thread sleeps, there are no more pages listed than threads awake to take them. */
  ghost predicate NoLostWork(s: State) {
    Sleeping in s.threads ==> |s.toAdd| <= Sum(s.threads, Awaiting)
  }

  ghost predicate Inv(site: Site, start: Page, s: State) {
    && Listed(site, start, s)
    && Covered(site, s)
    && Counted(s)
    && Measured(site, s)
    && NoLostWork(s)
  }

  lemma {:induction false} InitInv(site: Site, start: Page, n: nat)
    ensures Inv(site, start, Init(start, n))
  {
    var s := Init(start, n);
    ReachableStart(site, start);
    SumConstant(s.threads, Busy, 0);
    SumConstant(s.threads, PendingPages(site), 0);
    SumConstant(s.threads, PendingBytes(site), 0);
  }

  // ---- The lists are kept ----

  lemma {:induction false} ListedKept(site: Site, start: Page, s: State, step: Step)
    requires Listed(site, start, s) && Covered(site, s) && Enabled(site, s, step)
    ensures Listed(site, start, Do(site, s, step))
  {
    var s' := Do(site, s, step);
    match step {
      case Take(t) =>
        if s.toAdd != [] {
          TakeKnown(s, t);
          NoDupCons(s.toAdd[0], s.added);
        }
      case Offer(t, woken) =>
        var link := OutLinks(site, s.threads[t].page)[s.threads[t].done];
        if !Known(s, link) {
          OfferKnown(site, s, t, woken);
          assert Known(s, s.threads[t].page);
          ReachableNext(site, start, s.threads[t].page, link);
        }
      case _ =>
        assert s'.toAdd == s.toAdd && s'.added == s.added;
        assert forall page :: Known(s', page) <==> Known(s, page);
    }
  }

  lemma {:induction false} TakeKnown(s: State, t: nat)
    requires t < |s.threads| && s.toAdd != []
    ensures forall page :: Known(DoTake(s, t), page) <==> Known(s, page)
  {
  }

  lemma {:induction false} OfferKnown(site: Site, s: State, t: nat, woken: set<nat>)
    requires Enabled(site, s, Offer(t, woken))
    ensures var link := OutLinks(site, s.threads[t].page)[s.threads[t].done];
            forall page :: Known(DoOffer(site, s, t, woken), page) <==> Known(s, page) || page == link
  {
  }

  // ---- The recorded pages stay covered ----

  /** Only waiting changed: the lists are as they were, and so is every busy thread. */
  lemma {:induction false} CoveredIdle(site: Site, s: State, s': State)
    requires Covered(site, s) && s'.toAdd == s.toAdd && s'.added == s.added && |s'.threads| == |s.threads|
    requires forall t :: 0 <= t < |s.threads| ==>
               s'.threads[t] == s.threads[t] || (!IsBusy(s.threads[t]) && !IsBusy(s'.threads[t]))
    ensures Covered(site, s')
  {
  }

  lemma {:induction false} CoveredTake(site: Site, start: Page, s: State, t: nat)
    requires Listed(site, start, s) && Covered(site, s) && t < |s.threads| && s.threads[t] == Seeking && s.toAdd != []
    ensures Covered(site, DoTake(s, t))
  {
    var s', p := DoTake(s, t), s.toAdd[0];
    TakeKnown(s, t);
    assert s'.threads[t] == Fetching(p);
    assert forall u :: 0 <= u < |s.threads| && u != t ==> s'.threads[u] == s.threads[u];
    forall page | page in s'.added && !InProgress(s', page) ensures AllKnown(site, s', page) {
      assert page != p;
      assert !InProgress(s, page) && AllKnown(site, s, page);
    }
  }

  /** A busy thread goes on with its page, and the known pages only grow. */
  lemma {:induction false} CoveredOn(site: Site, s: State, s': State, t: nat)
    requires Covered(site, s) && t < |s.threads| && |s'.threads| == |s.threads| && s'.added == s.added
    requires IsBusy(s.threads[t]) && s'.threads[t].Scanning? && s'.threads[t].page == s.threads[t].page
    requires forall page :: Known(s, page) ==> Known(s', page)
    requires s'.threads[t].done <= |OutLinks(site, s.threads[t].page)|
    requires forall k :: 0 <= k < s'.threads[t].done ==> Known(s', OutLinks(site, s.threads[t].page)[k])
    requires forall u :: 0 <= u < |s.threads| && u != t ==>
               s'.threads[u] == s.threads[u] || (!IsBusy(s.threads[u]) && !IsBusy(s'.threads[u]))
    ensures Covered(site, s')
  {
    hide OutLinks, Known;
    forall u | 0 <= u < |s'.threads| && IsBusy(s'.threads[u])
      ensures IsBusy(s.threads[u]) && s'.threads[u].page == s.threads[u].page
    {
    }
    forall page | page in s'.added && !InProgress(s', page) ensures AllKnown(site, s', page) {
      if InProgress(s, page) {
        OnlyOn(s, s', t, page);
      }
      assert AllKnown(site, s, page);
    }
  }

  lemma {:induction false} OnlyOn(s: State, s': State, t: nat, page: Page)
    requires t < |s.threads| == |s'.threads| && IsBusy(s'.threads[t])
    requires IsBusy(s.threads[t]) && s'.threads[t].page == s.threads[t].page
    requires forall u :: 0 <= u < |s.threads| && u != t ==>
               s'.threads[u] == s.threads[u] || (!IsBusy(s.threads[u]) && !IsBusy(s'.threads[u]))
    requires InProgress(s, page)
    ensures InProgress(s', page)
  {
    var u :| 0 <= u < |s.threads| && IsBusy(s.threads[u]) && s.threads[u].page == page;
    assert IsBusy(s'.threads[u]) && s'.threads[u].page == page;
  }

  lemma {:induction false} CoveredReceive(site: Site, s: State, t: nat)
    requires Covered(site, s) && t < |s.threads| && s.threads[t].Fetching?
    ensures Covered(site, DoReceive(site, s, t))
  {
    var s' := DoReceive(site, s, t);
    assert forall page :: Known(s', page) <==> Known(s, page);
    CoveredOn(site, s, s', t);
  }

  lemma {:induction false} CoveredOffer(site: Site, s: State, t: nat, woken: set<nat>)
    requires Covered(site, s) && Enabled(site, s, Offer(t, woken))
    ensures Covered(site, DoOffer(site, s, t, woken))
  {
    hide OutLinks, Offers, AllKnown, InProgress;
    var s' := DoOffer(site, s, t, woken);
    if Known(s, OutLinks(site, s.threads[t].page)[s.threads[t].done]) {
      assert forall page :: Known(s', page) <==> Known(s, page);
    } else {
      OfferKnown(site, s, t, woken);
      assert s'.threads[t] == Scanning(s.threads[t].page, s.threads[t].done + 1);
    }
    CoveredOn(site, s, s', t);
  }

  lemma {:induction false} CoveredFinish(site: Site, s: State, t: nat)
    requires Covered(site, s) && t < |s.threads| && s.threads[t].Scanning?
    requires s.threads[t].done == |OutLinks(site, s.threads[t].page)|
    ensures Covered(site, DoFinish(s, t))
  {
    var s', p := DoFinish(s, t), s.threads[t].page;
    assert forall page :: Known(s', page) <==> Known(s, page);
    assert AllKnown(site, s', p);
    assert forall u :: 0 <= u < |s.threads| && u != t ==> s'.threads[u] == s.threads[u];
    forall page | page in s'.added && !InProgress(s', page) && page != p ensures AllKnown(site, s', page) {
      assert !InProgress(s, page) && AllKnown(site, s, page);
    }
  }

  lemma {:induction false} CoveredKept(site: Site, start: Page, s: State, step: Step)
    requires Listed(site, start, s) && Covered(site, s) && Enabled(site, s, step)
    ensures Covered(site, Do(site, s, step))
  {
    var s' := Do(site, s, step);
    match step {
      case Take(t) =>
        if s.toAdd == [] {
          CoveredIdle(site, s, s');
        } else {
          CoveredTake(site, start, s, t);
        }
      case Receive(t) =>
        CoveredReceive(site, s, t);
      case Offer(t, woken) =>
        CoveredOffer(site, s, t, woken);
      case Finish(t) =>
        CoveredFinish(site, s, t);
      case Rouse(t) =>
        CoveredIdle(site, s, s');
    }
  }

  // ---- The counters ----

  /** A thread goes on within its page: for anything that counts threads, only that thread's part changes. */
  lemma {:induction false} OfferSums(site: Site, s: State, t: nat, woken: set<nat>, f: Thread -> int)
    requires Enabled(site, s, Offer(t, woken)) && f(Sleeping) == f(Seeking)
    ensures Sum(DoOffer(site, s, t, woken).threads, f) ==
            Sum(s.threads, f) - f(s.threads[t]) + f(Scanning(s.threads[t].page, s.threads[t].done + 1))
  {
    hide OutLinks, Offers, Known;
    var thread := Scanning(s.threads[t].page, s.threads[t].done + 1);
    SumUpdate(s.threads, t, thread, f);
    SumUpdate(Wake(s.threads, Seeking, woken), t, thread, f);
    if !Known(s, OutLinks(site, s.threads[t].page)[s.threads[t].done]) {
      WakeSums(s.threads, Sleeping, Seeking, woken, f);
    }
  }

  lemma {:induction false} CountedKept(site: Site, s: State, step: Step)
    requires Counted(s) && Enabled(site, s, step)
    ensures Counted(Do(site, s, step))
  {
    match step {
      case Offer(t, woken) =>
        OfferSums(site, s, t, woken, Busy);
      case _ =>
        SumUpdate(s.threads, step.t, Do(site, s, step).threads[step.t], Busy);
    }
  }

  /** Either measure of what has been downloaded. */
  lemma {:induction false} MeasureKept(site: Site, s: State, step: Step, pending: Thread -> int, measure: Page -> int)
    requires Enabled(site, s, step)
    requires forall thread :: pending(thread) == if thread.Fetching? then measure(thread.page) else 0
    ensures var s' := Do(site, s, step);
            Sum(s'.added, measure) - Sum(s.added, measure) ==
            Sum(s'.threads, pending) - Sum(s.threads, pending)
            + if step.Receive? then measure(s.threads[step.t].page) else 0
  {
    match step {
      case Offer(t, woken) =>
        OfferSums(site, s, t, woken, pending);
      case Take(t) =>
        SumUpdate(s.threads, t, Do(site, s, step).threads[t], pending);
        if s.toAdd != [] {
          SumCons(s.toAdd[0], s.added, measure);
        }
      case _ =>
        SumUpdate(s.threads, step.t, Do(site, s, step).threads[step.t], pending);
    }
  }

  lemma {:induction false} MeasuredKept(site: Site, s: State, step: Step)
    requires Measured(site, s) && Enabled(site, s, step)
    ensures Measured(site, Do(site, s, step))
  {
    MeasureKept(site, s, step, PendingPages(site), PageWeight(site));
    MeasureKept(site, s, step, PendingBytes(site), PageBytes(site));
  }

  // ---- No page is left to sleepers ----

  lemma {:induction false} OfferWakes(site: Site, s: State, t: nat, woken: set<nat>)
    requires Enabled(site, s, Offer(t, woken)) && !Known(s, OutLinks(site, s.threads[t].page)[s.threads[t].done])
    ensures Sum(s.threads, Awaiting) <= Sum(DoOffer(site, s, t, woken).threads, Awaiting)
            <= Sum(s.threads, Awaiting) + |s.threads|
    ensures Sleeping in s.threads ==> Sum(s.threads, Awaiting) < Sum(DoOffer(site, s, t, woken).threads, Awaiting)
  {
    WakeGrows(s.threads, Sleeping, Seeking, woken, Awaiting);
    SumUpdate(Wake(s.threads, Seeking, woken), t, Scanning(s.threads[t].page, s.threads[t].done + 1), Awaiting);
  }

  lemma {:induction false} NoLostWorkKept(site: Site, s: State, step: Step)
    requires NoLostWork(s) && Enabled(site, s, step)
    ensures NoLostWork(Do(site, s, step))
  {
    var s' := Do(site, s, step);
    if step.Offer? && !Known(s, OutLinks(site, s.threads[step.t].page)[s.threads[step.t].done]) {
      OfferWakes(site, s, step.t, step.woken);
      if Sleeping in s'.threads {
        var u :| 0 <= u < |s'.threads| && s'.threads[u] == Sleeping;
        assert s.threads[u] == Sleeping;
      }
    } else {
      SumUpdate(s.threads, step.t, s'.threads[step.t], Awaiting);
      assert s'.threads == s.threads[step.t := s'.threads[step.t]];
      if s.toAdd == [] && step.Take? {
        SumNonNegative(s'.threads, Awaiting);
      } else if Sleeping in s'.threads {
        var u :| 0 <= u < |s'.threads| && s'.threads[u] == Sleeping;
        assert s.threads[u] == Sleeping;
      }
    }
  }

  // ---- Together ----

  lemma {:induction false} InvKept(site: Site, start: Page, s: State, step: Step)
    requires Inv(site, start, s) && Enabled(site, s, step)
    ensures Inv(site, start, Do(site, s, step))
  {
    ListedKept(site, start, s, step);
    CoveredKept(site, start, s, step);
    CountedKept(site, s, step);
    MeasuredKept(site, s, step);
    NoLostWorkKept(site, s, step);
  }

  /** The invariant holds after every run. */
  lemma {:induction false} InvAlways(site: Site, start: Page, n: nat, steps: seq<Step>)
    requires Run(site, Init(start, n), steps).Some?
    ensures Inv(site, start, Run(site, Init(start, n), steps).value)
  {
    if steps == [] {
      InitInv(site, start, n);
    } else {
      var before := steps[..|steps| - 1];
      InvAlways(site, start, n, before);
      InvKept(site, start, Run(site, Init(start, n), before).value, steps[|steps| - 1]);
    }
  }
}
