/** Condition variables: who sleeps on one, and whom a signal wakes. */
module Conditions {
  import opened Sums

  /** A signal wakes at least one of the sleepers, if there are any. */
  predicate Signalled<T(==)>(threads: seq<T>, asleep: T, woken: set<nat>) {
    && (forall t :: t in woken ==> t < |threads| && threads[t] == asleep)
    && (woken == {} ==> asleep !in threads)
  }

  function Wake<T>(threads: seq<T>, awake: T, woken: set<nat>): (after: seq<T>)
    ensures |after| == |threads|
    ensures forall i :: 0 <= i < |threads| ==> after[i] == if i in woken then awake else threads[i]
  {
    seq(|threads|, i requires 0 <= i < |threads| => if i in woken then awake else threads[i])
  }

  /** Waking all of them is a signal's right. */
  function Sleepers<T(==)>(threads: seq<T>, asleep: T): (woken: set<nat>)
    ensures Signalled(threads, asleep, woken)
  {
    var woken := set t: nat | t < |threads| && threads[t] == asleep;
    assert forall t :: 0 <= t < |threads| && threads[t] == asleep ==> t in woken;
    woken
  }

  /** Whatever does not tell sleepers from the woken is counted as before. */
  lemma {:induction false} WakeSums<T>(threads: seq<T>, asleep: T, awake: T, woken: set<nat>, f: T -> int)
    requires Signalled(threads, asleep, woken) && f(asleep) == f(awake)
    ensures Sum(Wake(threads, awake, woken), f) == Sum(threads, f)
  {
    SumEqual(threads, Wake(threads, awake, woken), f);
  }

  /** Whatever counts the awake finds more of them, if anyone slept. */
  lemma {:induction false} WakeGrows<T>(threads: seq<T>, asleep: T, awake: T, woken: set<nat>, f: T -> int)
    requires Signalled(threads, asleep, woken) && f(awake) == f(asleep) + 1
    ensures Sum(threads, f) <= Sum(Wake(threads, awake, woken), f) <= Sum(threads, f) + |threads|
    ensures asleep in threads ==> Sum(threads, f) < Sum(Wake(threads, awake, woken), f)
  {
    var after := Wake(threads, awake, woken);
    SumBetween(threads, after, f);
    if asleep in threads {
      var u :| u in woken;
      assert f(threads[u]) < f(after[u]);
    }
  }
}
