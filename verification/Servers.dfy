/** The server's globals, and the stretches of code its threads run on them under the lock. */
module Servers {
  import opened Wrappers
  import opened Conditions
  import opened Queues
  import opened ServerMachine

  class Server {
    const socketQueue: Queue
    /** Where each thread is in its code, and the history of the sockets. */
    ghost var producer: Producer
    ghost var consumers: seq<Consumer>
    ghost var accepted: seq<int>
    ghost var handed: seq<HandOff>
    ghost var served: nat

    ghost predicate Valid()
      reads this, socketQueue, socketQueue.buffer
    {
      socketQueue.Valid()
    }

    ghost function View(): State
      reads this, socketQueue, socketQueue.buffer
    {
      State(socketQueue.View(), producer, consumers, accepted, handed, served)
    }

    constructor (numOfThreads: nat)
      ensures fresh(socketQueue) && fresh(socketQueue.buffer) && (numOfThreads > 0 ==> Valid())
      ensures Initial(View(), numOfThreads)
    {
      socketQueue := new Queue(numOfThreads);
      producer := Accepting;
      consumers := seq(numOfThreads, _ => Contending);
      accepted, handed, served := [], [], 0;
    }

    /** The producer, from getting the lock to waiting for room or to letting the lock go. */
    method PushSocket(newsock: int) returns (pushed: bool)
      requires Valid() && producer == Pushing(newsock)
      modifies this, socketQueue, socketQueue.buffer
      ensures Valid() && View() == DoPush(old(View()))
      ensures pushed <==> producer == Signalling
      ensures var queued := old(Contents(socketQueue.View()));
              && Contents(socketQueue.View()) == queued + (if pushed then [newsock] else [])
              && (pushed <==> |queued| < socketQueue.size - 1)
              && (!pushed ==> producer == Waiting(newsock))
    {
      var full := socketQueue.Full();
      if full {
        producer := Waiting(newsock);
        return false;
      }
      pushed := socketQueue.Push(newsock);
      producer := Signalling;
    }

    /** A thread, from getting the lock to waiting for a socket or to letting the lock go. */
    method PopSocket(ghost t: nat) returns (newsock: Option<int>)
      requires Valid() && t < |consumers| && consumers[t] == Contending
      modifies this, socketQueue
      ensures Valid() && View() == DoPop(old(View()), t)
      ensures var queued := old(Contents(socketQueue.View()));
              if newsock == None then queued == [] && handed == old(handed)
              else queued == [newsock.value] + Contents(socketQueue.View())
                   && handed == old(handed) + [HandOff(newsock.value, t)]
      ensures consumers[t] == if newsock == None then Asleep else Owing(newsock.value, |old(handed)|)
    {
      var empty := socketQueue.Empty();
      if empty {
        consumers := consumers[t := Asleep];
        return None;
      }
      ghost var ring := socketQueue.View();
      PopTakesFirst(ring);
      EmptyAndFull(ring);
      var popped, sock := socketQueue.Pop();
      assert Contents(ring)[0] == ring.buffer[ring.embros] && Contents(ring)[0] == sock;
      consumers := consumers[t := Owing(sock, |handed|)];
      handed := handed + [HandOff(sock, t)];
      newsock := Some(sock);
    }

    /** The producer's signal, sent after the lock is let go: one sleeper or more go on, if there are any. */
    method SignalNonEmpty() returns (ghost woken: set<nat>)
      requires Valid() && producer == Signalling
      modifies this`producer, this`consumers
      ensures Valid() && Possible(old(View()), Signal(woken)) && View() == Do(old(View()), Signal(woken))
    {
      ghost var sleepers := Sleepers(consumers, Asleep);
      woken :| Signalled(consumers, Asleep, woken);
      consumers := Wake(consumers, Contending, woken);
      producer := Accepting;
    }

    /** A thread's signal back, sent after the lock is let go: the producer goes on if it waits. */
    method SignalNonFull(ghost t: nat)
      requires Valid() && t < |consumers| && consumers[t].Owing?
      modifies this`producer, this`consumers
      ensures Valid() && View() == Do(old(View()), SignalBack(t))
    {
      producer := Notified(producer);
      consumers := consumers[t := Serving(consumers[t].sock, consumers[t].number)];
    }
  }
}
