/** The server's hand-off of accepted sockets to its threads, as a state machine. Each step is a stretch of code under
    the lock, or a signal, which both sides send only after letting the lock go. */
module ServerMachine {
  import opened Wrappers
  import opened Sums
  import opened Conditions
  import opened Queues

  /** Pushing: has a socket and is about to look at the queue. Waiting: in the wait for room. Signalling: has pushed,
      and still owes the signal. */
  datatype Producer = Accepting | Pushing(sock: int) | Waiting(sock: int) | Signalling

  /** Contending: awake, about to look at the queue. Asleep: in the wait for a socket. Owing: has popped, and still owes
      the signal. Serving: busy with the request. `number` is the number of the hand-off, counted from 0. */
  datatype Consumer = Contending | Asleep | Owing(sock: int, number: nat) | Serving(sock: int, number: nat)

  /** Whether the client that was accepted as number `i` sends as many lines as a request has and takes the answer. If
      not, the thread that serves it never comes back. */
  type Clients = nat -> bool

  datatype HandOff = HandOff(sock: int, thread: nat)

  /** `accepted` and `handed` are the history: the sockets accepted, and to whom they were handed; `served` counts the
      requests finished. */
  datatype State = State(ring: Ring, producer: Producer, consumers: seq<Consumer>,
                         accepted: seq<int>, handed: seq<HandOff>, served: nat)

  /** As many slots as threads; a fresh buffer holds anything. */
  ghost predicate Initial(s: State, numOfThreads: nat) {
    && s.ring.embros == s.ring.piso == 0
    && |s.ring.buffer| == numOfThreads
    && s.producer == Accepting
    && s.consumers == seq(numOfThreads, _ => Contending)
    && s.accepted == [] && s.handed == [] && s.served == 0
  }

  datatype Step =
    | Accept(sock: int)
    | Push                        // push, or wait for room
    | Signal(woken: set<nat>)     // tell the threads that there is a socket
    | RouseProducer               // a spurious wake-up
    | Pop(t: nat)                 // pop, or wait for a socket
    | SignalBack(t: nat)          // tell the producer that there is room
    | Serve(t: nat)
    | Rouse(t: nat)               // a spurious wake-up

  /** What a thread may do next by where it is in its code. */
  predicate Possible(s: State, step: Step) {
    match step
    case Accept(_) => s.producer == Accepting
    case Push => s.producer.Pushing?
    case Signal(woken) => s.producer == Signalling && Signalled(s.consumers, Asleep, woken)
    case RouseProducer => s.producer.Waiting?
    case Pop(t) => t < |s.consumers| && s.consumers[t] == Contending
    case SignalBack(t) => t < |s.consumers| && s.consumers[t].Owing?
    case Serve(t) => t < |s.consumers| && s.consumers[t].Serving?
    case Rouse(t) => t < |s.consumers| && s.consumers[t] == Asleep
  }

  /** A service comes to its end only with a willing client. */
  predicate Enabled(clients: Clients, s: State, step: Step) {
    Possible(s, step) && (step.Serve? ==> clients(s.consumers[step.t].number))
  }

  /** Lines 111 to 123 of server.c. */
  ghost function DoPush(s: State): State
    requires RingOk(s.ring) && s.producer.Pushing?
  {
    if IsFull(s.ring) then s.(producer := Waiting(s.producer.sock))
    else s.(ring := Pushed(s.ring, s.producer.sock), producer := Signalling)
  }

  /** Lines 151 to 168 of serverThread.c. */
  ghost function DoPop(s: State, t: nat): State
    requires RingOk(s.ring) && t < |s.consumers|
  {
    if IsEmpty(s.ring) then s.(consumers := s.consumers[t := Asleep])
    else
      var sock := s.ring.buffer[s.ring.embros];
      s.(ring := Popped(s.ring), consumers := s.consumers[t := Owing(sock, |s.handed|)],
         handed := s.handed + [HandOff(sock, t)])
  }

  /** There is one producer, so a signal for room wakes it if it waits. */
  function Notified(producer: Producer): Producer {
    if producer.Waiting? then Pushing(producer.sock) else producer
  }

  ghost function Do(s: State, step: Step): State
    requires RingOk(s.ring) && Possible(s, step)
  {
    match step
    case Accept(sock) => s.(producer := Pushing(sock), accepted := s.accepted + [sock])
    case Push => DoPush(s)
    case Signal(woken) => s.(producer := Accepting, consumers := Wake(s.consumers, Contending, woken))
    case RouseProducer => s.(producer := Pushing(s.producer.sock))
    case Pop(t) => DoPop(s, t)
    case SignalBack(t) =>
      s.(producer := Notified(s.producer),
         consumers := s.consumers[t := Serving(s.consumers[t].sock, s.consumers[t].number)])
    case Serve(t) => s.(consumers := s.consumers[t := Contending], served := s.served + 1)
    case Rouse(t) => s.(consumers := s.consumers[t := Contending])
  }

  ghost function Run(clients: Clients, s: State, steps: seq<Step>): Option<State> {
    if steps == [] then Some(s)
    else
      var before := Run(clients, s, steps[..|steps| - 1]);
      var step := steps[|steps| - 1];
      if before.Some? && RingOk(before.value.ring) && Enabled(clients, before.value, step)
      then Some(Do(before.value, step)) else None
  }

  /** The sockets that the steps accept. */
  function AcceptedIn(steps: seq<Step>): seq<int> {
    if steps == [] then []
    else
      var step := steps[|steps| - 1];
      AcceptedIn(steps[..|steps| - 1]) + if step.Accept? then [step.sock] else []
  }

  function ServesOne(step: Step): int {
    if step.Serve? then 1 else 0
  }

  /** The history tells of the run: what it accepted, and how many requests it finished. */
  lemma {:induction false} HistoryIsTrue(clients: Clients, s0: State, n: nat, steps: seq<Step>, s: State)
    requires Initial(s0, n) && Run(clients, s0, steps) == Some(s)
    ensures s.accepted == AcceptedIn(steps) && s.served == Sum(steps, ServesOne)
  {
    if steps != [] {
      var before := steps[..|steps| - 1];
      HistoryIsTrue(clients, s0, n, before, Run(clients, s0, before).value);
    }
  }

  /** Counts the spurious wake-ups. */
  function Rousing(step: Step): int {
    if step.Rouse? || step.RouseProducer? then 1 else 0
  }

  // ---- What every step keeps ----

  function Held(producer: Producer): seq<int> {
    if producer.Pushing? || producer.Waiting? then [producer.sock] else []
  }

  function Sockets(handed: seq<HandOff>): (socks: seq<int>)
    ensures |socks| == |handed|
    ensures forall i :: 0 <= i < |handed| ==> socks[i] == handed[i].sock
  {
    seq(|handed|, i requires 0 <= i < |handed| => handed[i].sock)
  }

  function Awaiting(consumer: Consumer): int {
    if consumer == Contending then 1 else 0
  }

  function Holding(consumer: Consumer): int {
    if consumer.Owing? || consumer.Serving? then 1 else 0
  }

  function Unsent(producer: Producer): int {
    if producer == Signalling then 1 else 0
  }

  ghost predicate Sized(s: State, n: nat) {
    RingOk(s.ring) && |s.ring.buffer| == |s.consumers| == n
  }

  /** First in, first out, each once: the sockets handed out, then those in the ring, then the one the producer holds
      are the sockets accepted. */
  ghost predicate InOrder(s: State)
    requires RingOk(s.ring)
  {
    Sockets(s.handed) + Contents(s.ring) + Held(s.producer) == s.accepted
  }

  /** Hand-off `number` was of `sock` to thread `t`, and there was none to it since. */
  ghost predicate LastHanded(handed: seq<HandOff>, sock: int, number: nat, t: nat) {
    && number < |handed|
    && handed[number] == HandOff(sock, t)
    && (forall j :: number < j < |handed| ==> handed[j].thread != t)
  }

  /** Every hand-off is either held or served, and whoever holds a socket holds what it was last handed. */
  ghost predicate Accounted(s: State) {
    && |s.handed| == Sum(s.consumers, Holding) + s.served
    && (forall t :: 0 <= t < |s.consumers| && Holding(s.consumers[t]) == 1 ==>
          LastHanded(s.handed, s.consumers[t].sock, s.consumers[t].number, t))
  }

  /** While a thread sleeps, there are no more sockets in the ring than threads awake to take them and signals on the
      way. */
  ghost predicate SocketsMinded(s: State)
    requires RingOk(s.ring)
  {
    Asleep in s.consumers ==> |Contents(s.ring)| <= Sum(s.consumers, Awaiting) + Unsent(s.producer)
  }

  /** While the producer waits, there is no room, or a thread is about to tell it that there is. */
  ghost predicate RoomMinded(s: State)
    requires RingOk(s.ring)
  {
    s.producer.Waiting? ==> IsFull(s.ring) || exists t :: 0 <= t < |s.consumers| && s.consumers[t].Owing?
  }

  /** How many of the first `m` clients are not willing. */
  function Unwilling(clients: Clients, m: nat): nat {
    if m == 0 then 0 else Unwilling(clients, m - 1) + if clients(m - 1) then 0 else 1
  }

  lemma {:induction false} UnwillingPlainly(clients: Clients, m: nat)
    ensures Unwilling(clients, m) == |set i: nat | i < m && !clients(i)|
  {
    if m > 0 {
      UnwillingPlainly(clients, m - 1);
      var less := set i: nat | i < m - 1 && !clients(i);
      assert (set i: nat | i < m && !clients(i)) == if clients(m - 1) then less else less + {m - 1};
    } else {
      assert (set i: nat | i < m && !clients(i)) == {};
    }
  }

  predicate IsTied(clients: Clients, consumer: Consumer) {
    (consumer.Owing? || consumer.Serving?) && !clients(consumer.number)
  }

  function Tied(clients: Clients): Consumer -> int {
    (consumer: Consumer) => if IsTied(clients, consumer) then 1 else 0
  }

  /** Every client handed out that is not willing ties up a thread for ever. */
  ghost predicate TiedUp(clients: Clients, s: State) {
    Sum(s.consumers, Tied(clients)) == Unwilling(clients, |s.handed|)
  }

  ghost predicate Inv(s: State, n: nat) {
    Sized(s, n) && InOrder(s) && Accounted(s) && SocketsMinded(s) && RoomMinded(s)
  }

  lemma {:induction false} InitialInv(s: State, n: nat)
    requires Initial(s, n) && n > 0
    ensures Inv(s, n)
  {
    SumConstant(s.consumers, Holding, 0);
    EmptyAndFull(s.ring);
    assert Sockets(s.handed) == [];
  }

  lemma {:induction false} InOrderPush(s: State)
    requires RingOk(s.ring) && InOrder(s) && s.producer.Pushing?
    ensures var s' := DoPush(s); RingOk(s'.ring) && |s'.ring.buffer| == |s.ring.buffer| && InOrder(s')
  {
    hide Contents, Sockets;
    if !IsFull(s.ring) {
      var sock := s.producer.sock;
      PushAppends(s.ring, sock);
      assert Held(s.producer) == [sock];
      assert Sockets(s.handed) + (Contents(s.ring) + [sock]) + [] == Sockets(s.handed) + Contents(s.ring) + [sock];
    }
  }

  lemma {:induction false} InOrderPop(s: State, t: nat)
    requires RingOk(s.ring) && InOrder(s) && t < |s.consumers|
    ensures var s' := DoPop(s, t); RingOk(s'.ring) && |s'.ring.buffer| == |s.ring.buffer| && InOrder(s')
  {
    hide Contents;
    if !IsEmpty(s.ring) {
      var s', sock := DoPop(s, t), s.ring.buffer[s.ring.embros];
      PopTakesFirst(s.ring);
      assert Sockets(s'.handed) == Sockets(s.handed) + [sock];
      assert Sockets(s.handed) + ([sock] + Contents(s'.ring)) == Sockets(s.handed) + [sock] + Contents(s'.ring);
    }
  }

  lemma {:induction false} InOrderKept(s: State, step: Step)
    requires RingOk(s.ring) && InOrder(s) && Possible(s, step)
    ensures RingOk(Do(s, step).ring) && |Do(s, step).ring.buffer| == |s.ring.buffer| && InOrder(Do(s, step))
  {
    hide Contents, Sockets, DoPush, DoPop;
    match step {
      case Push =>
        InOrderPush(s);
      case Pop(t) =>
        InOrderPop(s, t);
      case Accept(sock) =>
        assert Sockets(s.handed) + Contents(s.ring) + [] == Sockets(s.handed) + Contents(s.ring);
      case _ =>
    }
  }

  lemma {:induction false} AccountedKept(s: State, step: Step)
    requires RingOk(s.ring) && Accounted(s) && Possible(s, step)
    ensures Accounted(Do(s, step)) && |Do(s, step).consumers| == |s.consumers|
  {
    var s' := Do(s, step);
    match step {
      case Signal(woken) =>
        SumEqual(s.consumers, s'.consumers, Holding);
      case Pop(t) =>
        SumUpdate(s.consumers, t, s'.consumers[t], Holding);
        if !IsEmpty(s.ring) {
          var sock := s.ring.buffer[s.ring.embros];
          assert LastHanded(s'.handed, sock, |s.handed|, t);
          forall u | 0 <= u < |s.consumers| && u != t && Holding(s.consumers[u]) == 1
            ensures LastHanded(s'.handed, s.consumers[u].sock, s.consumers[u].number, u)
          {
            assert LastHanded(s.handed, s.consumers[u].sock, s.consumers[u].number, u);
          }
        }
      case SignalBack(t) =>
        SumUpdate(s.consumers, t, s'.consumers[t], Holding);
      case Serve(t) =>
        SumUpdate(s.consumers, t, s'.consumers[t], Holding);
      case Rouse(t) =>
        SumUpdate(s.consumers, t, s'.consumers[t], Holding);
      case _ =>
    }
  }

  /** Nobody falls asleep but in a pop on an empty ring. */
  lemma {:induction false} SleptBefore(s: State, step: Step)
    requires RingOk(s.ring) && Possible(s, step) && Asleep in Do(s, step).consumers
    ensures Asleep in s.consumers || (step.Pop? && IsEmpty(s.ring))
  {
  }

  lemma {:induction false} SocketsMindedKept(s: State, step: Step)
    requires RingOk(s.ring) && SocketsMinded(s) && Possible(s, step) && RingOk(Do(s, step).ring)
    ensures SocketsMinded(Do(s, step))
  {
    var s' := Do(s, step);
    EmptyAndFull(s.ring);
    SumNonNegative(s'.consumers, Awaiting);
    if Asleep in s'.consumers {
      SleptBefore(s, step);
      match step {
        case Push =>
          if !IsFull(s.ring) {
            PushAppends(s.ring, s.producer.sock);
          }
        case Signal(woken) =>
          WakeGrows(s.consumers, Asleep, Contending, woken, Awaiting);
        case Pop(t) =>
          SumUpdate(s.consumers, t, s'.consumers[t], Awaiting);
          if !IsEmpty(s.ring) {
            PopTakesFirst(s.ring);
          }
        case SignalBack(t) =>
          SumUpdate(s.consumers, t, s'.consumers[t], Awaiting);
        case Serve(t) =>
          SumUpdate(s.consumers, t, s'.consumers[t], Awaiting);
        case Rouse(t) =>
          SumUpdate(s.consumers, t, s'.consumers[t], Awaiting);
        case _ =>
      }
    }
  }

  lemma {:induction false} RoomMindedKept(s: State, step: Step)
    requires RingOk(s.ring) && RoomMinded(s) && Possible(s, step) && RingOk(Do(s, step).ring)
    ensures RoomMinded(Do(s, step))
  {
    var s' := Do(s, step);
    if s'.producer.Waiting? && !IsFull(s'.ring) {
      if step.Pop? && !IsEmpty(s.ring) {
        assert s'.consumers[step.t].Owing?;
      } else {
        assert s.producer.Waiting? && s'.ring == s.ring;
        var t :| 0 <= t < |s.consumers| && s.consumers[t].Owing?;
        assert s'.consumers[t] == s.consumers[t];
      }
    }
  }

  lemma {:induction false} InvKept(s: State, n: nat, step: Step)
    requires Inv(s, n) && Possible(s, step)
    ensures Inv(Do(s, step), n)
  {
    InOrderKept(s, step);
    AccountedKept(s, step);
    SocketsMindedKept(s, step);
    RoomMindedKept(s, step);
  }

  lemma {:induction false} TiedUpKept(clients: Clients, s: State, step: Step)
    requires RingOk(s.ring) && TiedUp(clients, s) && Enabled(clients, s, step)
    ensures TiedUp(clients, Do(s, step))
  {
    var s' := Do(s, step);
    match step {
      case Signal(woken) =>
        assert Tied(clients)(Asleep) == Tied(clients)(Contending) == 0;
        WakeSums(s.consumers, Asleep, Contending, woken, Tied(clients));
      case Pop(t) =>
        SumUpdate(s.consumers, t, s'.consumers[t], Tied(clients));
      case SignalBack(t) =>
        SumUpdate(s.consumers, t, s'.consumers[t], Tied(clients));
      case Serve(t) =>
        SumUpdate(s.consumers, t, s'.consumers[t], Tied(clients));
      case Rouse(t) =>
        SumUpdate(s.consumers, t, s'.consumers[t], Tied(clients));
      case _ =>
    }
  }

  lemma {:induction false} InvAlways(clients: Clients, s0: State, n: nat, steps: seq<Step>)
    requires Initial(s0, n) && n > 0 && Run(clients, s0, steps).Some?
    ensures Inv(Run(clients, s0, steps).value, n) && TiedUp(clients, Run(clients, s0, steps).value)
  {
    if steps == [] {
      InitialInv(s0, n);
      SumConstant(s0.consumers, Tied(clients), 0);
    } else {
      var before, step := Run(clients, s0, steps[..|steps| - 1]).value, steps[|steps| - 1];
      InvAlways(clients, s0, n, steps[..|steps| - 1]);
      InvKept(before, n, step);
      TiedUpKept(clients, before, step);
    }
  }
}
