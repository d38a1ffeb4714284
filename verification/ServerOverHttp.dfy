/** Which clients the server's threads come back from: those that send as many lines as a request has. */
module ServerOverHttp {
  import opened Wrappers
  import opened CText
  import opened Sums
  import Streams = Sockets
  import opened Http
  import opened ServerMachine
  import opened ServerTheorems

  /** Client `i` sends `streams(i)`, and takes the answer. A request that is too short ends the whole process; the
      machine's runs stop before that. */
  function ClientsOf(streams: nat -> string, rootDir: string): Clients {
    (i: nat) => ParseRequest(streams(i), rootDir) != NoRequest
  }

  /** The thread comes back exactly if there are six lines, or a first one that is too short for a request. */
  lemma {:induction false} WillingExactly(streams: nat -> string, rootDir: string, i: nat)
    ensures ClientsOf(streams, rootDir)(i) <==>
            || Streams.AfterLines(streams(i), 6).Some?
            || (Streams.HasLine(streams(i)) && |CStr(Streams.LineOf(streams(i)))| <= 13)
  {
    var stream := streams(i);
    assert Streams.AfterLines(stream, 6) ==
           if Streams.HasLine(stream) then Streams.AfterLines(Streams.AfterLine(stream), 5) else None;
  }

  lemma {:induction false} SilentAreUnwilling(streams: nat -> string, rootDir: string, n: nat)
    requires forall i: nat :: i < n ==> streams(i) == ""
    ensures Unwilling(ClientsOf(streams, rootDir), n) == n
  {
    if n > 0 {
      SilentAreUnwilling(streams, rootDir, n - 1);
      assert streams(n - 1) == "";
    }
  }

  /** For instance: as many clients that send nothing as there are threads, and the next one is not served. */
  lemma {:induction false} SilentClientsDeadlock(streams: nat -> string, rootDir: string, s0: State, n: nat)
    requires Initial(s0, n) && n > 0 && forall i: nat :: i < n ==> streams(i) == ""
    ensures exists steps :: Deadlocks(ClientsOf(streams, rootDir), s0, steps)
  {
    SilentAreUnwilling(streams, rootDir, n);
    DeadlockExactly(ClientsOf(streams, rootDir), s0, n);
  }

  /** Each client is a crawler that asks for a page. */
  ghost predicate AllCrawlers(streams: nat -> string, pages: nat -> string) {
    forall i: nat :: Askable(pages(i)) && Asked(pages(i)) == Some(streams(i))
  }

  lemma {:induction false} CrawlersAreWilling(streams: nat -> string, pages: nat -> string, rootDir: string, i: nat)
    requires AllCrawlers(streams, pages)
    ensures ParseRequest(streams(i), rootDir) == Named(rootDir + "/" + pages(i), [NUL])
    ensures ClientsOf(streams, rootDir)(i)
  {
    hide ParseRequest, PrintRequest;
    assert Askable(pages(i)) && Asked(pages(i)) == Some(streams(i));
    RequestRoundTrip(pages(i), rootDir);
  }

  /** Crawlers are all served: with two threads or more, once they stop coming and the server can do no more. */
  lemma {:induction false} CrawlersAreServed(streams: nat -> string, pages: nat -> string, rootDir: string, s0: State,
                                             n: nat, steps: seq<Step>, s: State)
    requires AllCrawlers(streams, pages) && Initial(s0, n) && n >= 2
    requires Run(ClientsOf(streams, rootDir), s0, steps) == Some(s)
    requires Stuck(ClientsOf(streams, rootDir), s)
    ensures s.served == |s.accepted| && ServerMachine.Sockets(s.handed) == s.accepted
    ensures forall t :: 0 <= t < n && t < |s.consumers| ==> s.consumers[t] == Asleep
  {
    hide Stuck, AllCrawlers, ParseRequest;
    var clients := ClientsOf(streams, rootDir);
    forall i: nat ensures clients(i) {
      CrawlersAreWilling(streams, pages, rootDir, i);
    }
    NoneUnwilling(clients, |s.handed|);
    StuckExactly(clients, s0, n, steps, s);
    InvAlways(clients, s0, n, steps);
    StuckShape(clients, s, n);
  }
}
