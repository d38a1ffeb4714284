/** What the invariants of the server amount to over whole runs. */
module ServerTheorems {
  import opened Wrappers
  import opened Sums
  import opened Conditions
  import opened Queues
  import opened ServerMachine

  // ---- The hand-off ----

  /** In every state that can be reached, hand-off `i` passed on the `i`-th socket accepted, the rest of the accepted
      sockets wait in the ring and with the producer in their order, and one slot of the ring stays free. */
  lemma {:induction false} HandOffIsFifo(clients: Clients, s0: State, n: nat, steps: seq<Step>, s: State)
    requires Initial(s0, n) && n > 0 && Run(clients, s0, steps) == Some(s)
    ensures RingOk(s.ring) && |Contents(s.ring)| <= n - 1
    ensures |s.handed| <= |s.accepted|
    ensures forall i :: 0 <= i < |s.handed| ==> s.handed[i].sock == s.accepted[i]
    ensures Contents(s.ring) + Held(s.producer) == s.accepted[|s.handed|..]
    ensures forall t :: 0 <= t < |s.consumers| && Holding(s.consumers[t]) == 1 ==>
              LastHanded(s.handed, s.consumers[t].sock, s.consumers[t].number, t)
    ensures |s.handed| == Sum(s.consumers, Holding) + s.served
  {
    InvAlways(clients, s0, n, steps);
    var socks, rest := Sockets(s.handed), Contents(s.ring) + Held(s.producer);
    assert s.accepted == socks + rest;
    forall i | 0 <= i < |s.handed| ensures s.handed[i].sock == s.accepted[i] {
      assert s.accepted[i] == socks[i];
    }
  }

  /** No wake-up is lost, on either side. */
  lemma {:induction false} WakeUpsAreMinded(clients: Clients, s0: State, n: nat, steps: seq<Step>, s: State)
    requires Initial(s0, n) && n > 0 && Run(clients, s0, steps) == Some(s)
    ensures RingOk(s.ring)
    ensures Asleep in s.consumers ==> |Contents(s.ring)| <= Sum(s.consumers, Awaiting) + Unsent(s.producer)
    ensures s.producer.Waiting? ==>
              |Contents(s.ring)| == n - 1 || exists t :: 0 <= t < |s.consumers| && s.consumers[t].Owing?
  {
    InvAlways(clients, s0, n, steps);
    EmptyAndFull(s.ring);
  }

  // ---- Deadlock ----

  /** The steps that need neither a new client nor a spurious wake-up. */
  predicate Internal(step: Step) {
    step.Push? || step.Signal? || step.Pop? || step.SignalBack? || step.Serve?
  }

  ghost predicate Stuck(clients: Clients, s: State) {
    forall step :: Enabled(clients, s, step) ==> !Internal(step)
  }

  /** A socket is queued, or the producer has one in hand. */
  ghost predicate Waits(s: State)
    requires RingOk(s.ring)
  {
    Contents(s.ring) != [] || Held(s.producer) != []
  }

  /** The thread serves a client that is not willing. */
  predicate Hangs(clients: Clients, consumer: Consumer) {
    consumer.Serving? && !clients(consumer.number)
  }

  lemma {:induction false} AwakeGoesOn(clients: Clients, s: State, t: nat)
    requires t < |s.consumers| && s.consumers[t] != Asleep && !Hangs(clients, s.consumers[t])
    ensures !Stuck(clients, s)
  {
    match s.consumers[t] {
      case Contending => assert Enabled(clients, s, Pop(t)) && Internal(Pop(t));
      case Owing(_, _) => assert Enabled(clients, s, SignalBack(t)) && Internal(SignalBack(t));
      case Serving(_, _) => assert Enabled(clients, s, Serve(t)) && Internal(Serve(t));
    }
  }

  lemma {:induction false} ProducerGoesOn(clients: Clients, s: State)
    requires s.producer.Pushing? || s.producer == Signalling
    ensures !Stuck(clients, s)
  {
    if s.producer.Pushing? {
      assert Enabled(clients, s, Push) && Internal(Push);
    } else {
      var woken := Sleepers(s.consumers, Asleep);
      assert Enabled(clients, s, Signal(woken)) && Internal(Signal(woken));
    }
  }

  /** In a stuck server every thread sleeps or hangs, and where one sleeps the ring is empty; the producer accepts, or
      waits on a full ring; every hand-off to a willing client is served. */
  lemma {:induction false} StuckShape(clients: Clients, s: State, n: nat)
    requires Inv(s, n) && TiedUp(clients, s) && n > 0 && Stuck(clients, s)
    ensures forall t :: 0 <= t < n ==> s.consumers[t] == Asleep || Hangs(clients, s.consumers[t])
    ensures Asleep in s.consumers ==> Contents(s.ring) == []
    ensures Asleep !in s.consumers ==> Unwilling(clients, |s.handed|) == n
    ensures s.producer == Accepting || (s.producer.Waiting? && |Contents(s.ring)| == n - 1)
    ensures s.served == |s.handed| - Unwilling(clients, |s.handed|)
  {
    forall t | 0 <= t < n ensures s.consumers[t] == Asleep || Hangs(clients, s.consumers[t]) {
      if s.consumers[t] != Asleep && !Hangs(clients, s.consumers[t]) {
        AwakeGoesOn(clients, s, t);
      }
    }
    if s.producer.Pushing? || s.producer == Signalling {
      ProducerGoesOn(clients, s);
    }
    EmptyAndFull(s.ring);
    SumConstant(s.consumers, Awaiting, 0);
    SumAgree(s.consumers, Holding, Tied(clients));
    if Asleep !in s.consumers {
      SumConstant(s.consumers, Tied(clients), 1);
    }
  }

  /** With two threads or more: where no thread can go on, either every socket accepted has been handed out, in order,
      or each thread hangs with a client of its own. Either way every willing client handed out has been served. */
  lemma {:induction false} StuckExactly(clients: Clients, s0: State, n: nat, steps: seq<Step>, s: State)
    requires Initial(s0, n) && n >= 2 && Run(clients, s0, steps) == Some(s) && Stuck(clients, s)
    ensures |s.consumers| == n
    ensures if Asleep in s.consumers then s.producer == Accepting && Sockets(s.handed) == s.accepted
            else forall t :: 0 <= t < n ==> Hangs(clients, s.consumers[t])
    ensures Asleep !in s.consumers ==> Unwilling(clients, |s.handed|) == n
    ensures s.served == |s.handed| - Unwilling(clients, |s.handed|)
  {
    InvAlways(clients, s0, n, steps);
    StuckShape(clients, s, n);
    if Asleep in s.consumers {
      assert s.accepted == Sockets(s.handed) + [] + [];
    }
  }

  lemma {:induction false} UnwillingGrows(clients: Clients, m: nat, k: nat)
    requires m <= k
    ensures Unwilling(clients, m) <= Unwilling(clients, k)
  {
    if m < k {
      UnwillingGrows(clients, m, k - 1);
    }
  }

  /** With two threads or more, and fewer clients that are not willing than threads, no state that can be reached leaves
      a socket waiting with nobody able to go on; nor a socket in a thread's hands, if every client is willing. */
  lemma {:induction false} NoDeadlock(clients: Clients, s0: State, n: nat, steps: seq<Step>, s: State)
    requires Initial(s0, n) && n >= 2 && Run(clients, s0, steps) == Some(s)
    ensures RingOk(s.ring)
    ensures Unwilling(clients, |s.accepted|) < n && Waits(s) ==> !Stuck(clients, s)
    ensures Unwilling(clients, |s.accepted|) == 0 && Sum(s.consumers, Holding) > 0 ==> !Stuck(clients, s)
  {
    HandOffIsFifo(clients, s0, n, steps, s);
    UnwillingGrows(clients, |s.handed|, |s.accepted|);
    if Stuck(clients, s) {
      StuckExactly(clients, s0, n, steps, s);
    }
  }

  // ---- One slot ----

  /** With one slot the ring is empty and full at once: nothing is ever pushed. */
  lemma {:induction false} OneSlotPassesNothing(clients: Clients, s0: State, steps: seq<Step>, s: State)
    requires Initial(s0, 1) && Run(clients, s0, steps) == Some(s)
    ensures RingOk(s.ring) && IsEmpty(s.ring) && IsFull(s.ring)
    ensures s.handed == [] && s.producer != Signalling && |s.accepted| <= 1
  {
    InvAlways(clients, s0, 1, steps);
    EmptyAndFull(s.ring);
    if steps != [] {
      OneSlotPassesNothing(clients, s0, steps[..|steps| - 1], Run(clients, s0, steps[..|steps| - 1]).value);
    }
    assert Sockets(s.handed) == [];
  }

  /** A run that ends stuck with a socket waiting. */
  ghost predicate Deadlocks(clients: Clients, s0: State, steps: seq<Step>) {
    var s := Run(clients, s0, steps);
    s.Some? && RingOk(s.value.ring) && Waits(s.value) && Stuck(clients, s.value)
  }

  lemma {:induction false} RunOn(clients: Clients, s0: State, steps: seq<Step>, s: State, step: Step)
    requires Run(clients, s0, steps) == Some(s) && RingOk(s.ring) && Enabled(clients, s, step)
    ensures Run(clients, s0, steps + [step]) == Some(Do(s, step))
  {
    assert (steps + [step])[..|steps|] == steps;
  }

  /** One client, and the server of one thread is stuck with its socket. */
  lemma {:induction false} OneSlotDeadlocks(clients: Clients, s0: State, sock: int)
    requires Initial(s0, 1)
    ensures Deadlocks(clients, s0, [Accept(sock), Push, Pop(0)])
  {
    RunOn(clients, s0, [], s0, Accept(sock));
    var s1 := Do(s0, Accept(sock));
    assert [] + [Accept(sock)] == [Accept(sock)];
    RunOn(clients, s0, [Accept(sock)], s1, Push);
    var s2 := Do(s1, Push);
    assert s2.producer == Waiting(sock);
    assert [Accept(sock)] + [Push] == [Accept(sock), Push];
    RunOn(clients, s0, [Accept(sock), Push], s2, Pop(0));
    var s3 := Do(s2, Pop(0));
    assert [Accept(sock), Push] + [Pop(0)] == [Accept(sock), Push, Pop(0)];
    assert s3.consumers == [Asleep] && Held(s3.producer) == [sock];
  }

  // ---- Clients that hang ----

  /** After the first `m` clients: those that were willing are served, the others hang with the first threads, and all
      other threads look for work. */
  ghost predicate Ready(clients: Clients, s: State, n: nat, m: nat) {
    && Sized(s, n) && IsEmpty(s.ring)
    && s.producer == Accepting
    && |s.handed| == m
    && (forall t :: 0 <= t < n ==>
          if t < Unwilling(clients, m) then Hangs(clients, s.consumers[t]) else s.consumers[t] == Contending)
  }

  /** The next client's socket gets into the ring. */
  lemma {:induction false} NextQueued(clients: Clients, s0: State, n: nat, m: nat, steps: seq<Step>, s: State)
    returns (more: seq<Step>, s': State)
    requires n >= 2 && Run(clients, s0, steps) == Some(s) && Ready(clients, s, n, m)
    ensures Run(clients, s0, more) == Some(s')
    ensures Sized(s', n) && |Contents(s'.ring)| == 1 && s'.producer == Accepting
    ensures s'.consumers == s.consumers && s'.handed == s.handed
  {
    EmptyAndFull(s.ring);
    PushAppends(s.ring, 0);
    RunOn(clients, s0, steps, s, Accept(0));
    var s1 := Do(s, Accept(0));
    RunOn(clients, s0, steps + [Accept(0)], s1, Push);
    var s2 := Do(s1, Push);
    assert Asleep !in s2.consumers;
    RunOn(clients, s0, steps + [Accept(0)] + [Push], s2, Signal({}));
    more, s' := steps + [Accept(0)] + [Push] + [Signal({})], Do(s2, Signal({}));
  }

  /** Thread `t` takes it, and serves it if the client is willing. */
  lemma {:induction false} NextTaken(clients: Clients, s0: State, n: nat, m: nat, steps: seq<Step>, s: State, t: nat)
    returns (more: seq<Step>, s': State)
    requires Run(clients, s0, steps) == Some(s) && Sized(s, n) && |Contents(s.ring)| == 1 && s.producer == Accepting
    requires |s.handed| == m && t < n && s.consumers[t] == Contending
    ensures Run(clients, s0, more) == Some(s')
    ensures Sized(s', n) && IsEmpty(s'.ring) && s'.producer == Accepting && |s'.handed| == m + 1
    ensures forall u :: 0 <= u < n && u != t ==> s'.consumers[u] == s.consumers[u]
    ensures if clients(m) then s'.consumers[t] == Contending else Hangs(clients, s'.consumers[t])
  {
    EmptyAndFull(s.ring);
    PopTakesFirst(s.ring);
    EmptyAndFull(Popped(s.ring));
    RunOn(clients, s0, steps, s, Pop(t));
    var s1 := Do(s, Pop(t));
    RunOn(clients, s0, steps + [Pop(t)], s1, SignalBack(t));
    more, s' := steps + [Pop(t)] + [SignalBack(t)], Do(s1, SignalBack(t));
    if clients(m) {
      RunOn(clients, s0, more, s', Serve(t));
      more, s' := more + [Serve(t)], Do(s', Serve(t));
    }
  }

  /** As long as a thread is left, a run gets ready for the next client. */
  lemma {:induction false} GetsReady(clients: Clients, s0: State, n: nat, m: nat) returns (steps: seq<Step>, s: State)
    requires Initial(s0, n) && n >= 2 && (m > 0 ==> Unwilling(clients, m - 1) < n)
    ensures Run(clients, s0, steps) == Some(s) && Ready(clients, s, n, m)
  {
    if m == 0 {
      return [], s0;
    }
    if m > 1 {
      UnwillingGrows(clients, m - 2, m - 1);
    }
    steps, s := GetsReady(clients, s0, n, m - 1);
    steps, s := NextQueued(clients, s0, n, m - 1, steps, s);
    steps, s := NextTaken(clients, s0, n, m - 1, steps, s, Unwilling(clients, m - 1));
  }

  lemma {:induction false} FirstFull(clients: Clients, n: nat, m: nat) returns (k: nat)
    requires n > 0 && Unwilling(clients, m) >= n
    ensures Unwilling(clients, k) == n && k > 0 && Unwilling(clients, k - 1) < n
  {
    k := m;
    if Unwilling(clients, m - 1) >= n {
      k := FirstFull(clients, n, m - 1);
    }
  }

  /** As many clients that are not willing as there are threads, then one more client, and its socket waits for ever. */
  lemma {:induction false} HangingDeadlocks(clients: Clients, s0: State, n: nat, m: nat) returns (steps: seq<Step>)
    requires Initial(s0, n) && n >= 2 && Unwilling(clients, m) >= n
    ensures Deadlocks(clients, s0, steps)
  {
    var k := FirstFull(clients, n, m);
    var s;
    steps, s := GetsReady(clients, s0, n, k);
    steps, s := NextQueued(clients, s0, n, k, steps, s);
    assert forall t :: 0 <= t < n ==> Hangs(clients, s.consumers[t]);
  }

  /** The server can deadlock exactly if it has a single thread, or there are as many clients that are not willing as it
      has threads. */
  lemma {:induction false} DeadlockExactly(clients: Clients, s0: State, n: nat)
    requires Initial(s0, n) && n > 0
    ensures (exists steps :: Deadlocks(clients, s0, steps)) <==> n == 1 || exists m :: Unwilling(clients, m) >= n
  {
    if n == 1 {
      OneSlotDeadlocks(clients, s0, 0);
    } else if m :| Unwilling(clients, m) >= n {
      var steps := HangingDeadlocks(clients, s0, n, m);
    } else {
      forall steps ensures !Deadlocks(clients, s0, steps) {
        if Run(clients, s0, steps).Some? {
          NoDeadlock(clients, s0, n, steps, Run(clients, s0, steps).value);
        }
      }
    }
  }

  lemma {:induction false} NoneUnwilling(clients: Clients, m: nat)
    requires forall i: nat :: clients(i)
    ensures Unwilling(clients, m) == 0
  {
    if m > 0 {
      NoneUnwilling(clients, m - 1);
    }
  }

  /** With willing clients only, exactly if it has a single thread. */
  lemma {:induction false} DeadlockExactlyWithOneThread(clients: Clients, s0: State, n: nat)
    requires Initial(s0, n) && n > 0 && forall i: nat :: clients(i)
    ensures (exists steps :: Deadlocks(clients, s0, steps)) <==> n == 1
  {
    forall m ensures Unwilling(clients, m) == 0 {
      NoneUnwilling(clients, m);
    }
    DeadlockExactly(clients, s0, n);
  }

  // ---- Every socket is served ----

  function ConsumerRank(consumer: Consumer): int {
    match consumer
    case Contending => 1
    case Asleep => 0
    case Owing(_, _) => 4
    case Serving(_, _) => 2
  }

  function ProducerRank(producer: Producer, n: nat): int {
    match producer
    case Accepting => 0
    case Pushing(_) => n + 6
    case Waiting(_) => n + 5
    case Signalling => n + 1
  }

  /** Every internal step makes this smaller. */
  ghost function Rank(s: State): int
    requires RingOk(s.ring)
  {
    4 * |Contents(s.ring)| + ProducerRank(s.producer, |s.consumers|) + Sum(s.consumers, ConsumerRank)
  }

  lemma {:induction false} RankStep(s: State, step: Step)
    requires RingOk(s.ring) && InOrder(s) && Possible(s, step)
    ensures RingOk(Do(s, step).ring)
    ensures Internal(step) ==> Rank(Do(s, step)) < Rank(s)
    ensures step.Rouse? || step.RouseProducer? ==> Rank(Do(s, step)) == Rank(s) + 1
  {
    InOrderKept(s, step);
    var s' := Do(s, step);
    match step {
      case Push =>
        if !IsFull(s.ring) {
          PushAppends(s.ring, s.producer.sock);
        }
      case Signal(woken) =>
        SumBetween(s.consumers, s'.consumers, ConsumerRank);
      case Pop(t) =>
        SumUpdate(s.consumers, t, s'.consumers[t], ConsumerRank);
        if !IsEmpty(s.ring) {
          PopTakesFirst(s.ring);
        }
      case SignalBack(t) =>
        SumUpdate(s.consumers, t, s'.consumers[t], ConsumerRank);
      case Serve(t) =>
        SumUpdate(s.consumers, t, s'.consumers[t], ConsumerRank);
      case Rouse(t) =>
        SumUpdate(s.consumers, t, s'.consumers[t], ConsumerRank);
      case _ =>
    }
  }

  ghost predicate NoClients(steps: seq<Step>) {
    forall i :: 0 <= i < |steps| ==> !steps[i].Accept?
  }

  lemma {:induction false} RankRun(clients: Clients, s: State, n: nat, more: seq<Step>)
    requires Inv(s, n) && TiedUp(clients, s) && Run(clients, s, more).Some? && NoClients(more)
    ensures var s' := Run(clients, s, more).value;
            && Inv(s', n) && TiedUp(clients, s')
            && s'.accepted == s.accepted
            && Rank(s') <= Rank(s) - |more| + 2 * Sum(more, Rousing)
  {
    if more != [] {
      var before, step := more[..|more| - 1], more[|more| - 1];
      RankRun(clients, s, n, before);
      var s1 := Run(clients, s, before).value;
      InvKept(s1, n, step);
      TiedUpKept(clients, s1, step);
      RankStep(s1, step);
    }
  }

  lemma {:induction false} RankNonNegative(s: State)
    requires RingOk(s.ring)
    ensures Rank(s) >= 0
  {
    SumNonNegative(s.consumers, ConsumerRank);
  }

  /** From any state two threads or more can reach, and while no further client comes, the server takes only so many
      steps besides spurious wake-ups. When it can take no more, every willing client whose socket was handed out has
      been served; and unless as many of them as there are threads were not willing, that is every socket accepted. */
  lemma {:induction false} EverySocketIsServed(clients: Clients, s0: State, n: nat, steps: seq<Step>, s: State,
                                               more: seq<Step>, s': State)
    requires Initial(s0, n) && n >= 2 && Run(clients, s0, steps) == Some(s)
    requires Run(clients, s, more) == Some(s') && NoClients(more)
    ensures RingOk(s.ring) && |more| - Sum(more, Rousing) <= Rank(s) + Sum(more, Rousing)
    ensures Stuck(clients, s') ==> s'.served == |s'.handed| - Unwilling(clients, |s'.handed|)
    ensures Stuck(clients, s') && Unwilling(clients, |s'.handed|) < n ==>
              Sockets(s'.handed) == s'.accepted == s.accepted
  {
    InvAlways(clients, s0, n, steps);
    RankRun(clients, s, n, more);
    RankNonNegative(s');
    if Stuck(clients, s') {
      StuckShape(clients, s', n);
      if Asleep in s'.consumers {
        assert s'.accepted == Sockets(s'.handed) + [] + [];
      }
    }
  }
}
