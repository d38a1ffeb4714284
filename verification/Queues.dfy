/** The ring of accepted sockets. It holds one socket less than it has slots. */
module Queues {

  /** The ring's fields at one moment; `size` is the length of the buffer. */
  datatype Ring = Ring(embros: nat, piso: nat, buffer: seq<int>)

  ghost predicate RingOk(r: Ring) {
    r.embros < |r.buffer| && r.piso < |r.buffer|
  }

  function Next(i: nat, size: nat): (j: nat)
    requires i < size
    ensures j < size && j == if i + 1 < size then i + 1 else 0
  {
    (i + 1) % size
  }

  predicate IsEmpty(r: Ring) {
    r.embros == r.piso
  }

  predicate IsFull(r: Ring)
    requires RingOk(r)
  {
    Next(r.piso, |r.buffer|) == r.embros
  }

  function Pushed(r: Ring, element: int): Ring
    requires RingOk(r)
  {
    if IsFull(r) then r else r.(buffer := r.buffer[r.piso := element], piso := Next(r.piso, |r.buffer|))
  }

  function Popped(r: Ring): Ring
    requires RingOk(r)
  {
    if IsEmpty(r) then r else r.(embros := Next(r.embros, |r.buffer|))
  }

  // ---- What the ring holds ----

  function Occupancy(r: Ring): (n: nat)
    requires RingOk(r)
    ensures n < |r.buffer|
  {
    if r.embros <= r.piso then r.piso - r.embros else r.piso + |r.buffer| - r.embros
  }

  /** From `embros` so many places round is `piso`. */
  lemma {:induction false} OccupancyPlainly(r: Ring)
    requires RingOk(r)
    ensures (r.embros + Occupancy(r)) % |r.buffer| == r.piso
  {
    WrapAround(r.embros + Occupancy(r), |r.buffer|);
  }

  /** The elements from `embros` on, going round, up to before `piso`. */
  function Contents(r: Ring): (c: seq<int>)
    requires RingOk(r)
    ensures |c| == Occupancy(r) < |r.buffer|
    ensures forall i :: 0 <= i < |c| ==> c[i] == r.buffer[(r.embros + i) % |r.buffer|]
  {
    seq(Occupancy(r), i requires 0 <= i < Occupancy(r) => r.buffer[(r.embros + i) % |r.buffer|])
  }

  lemma {:induction false} WrapAround(x: nat, n: nat)
    requires x < 2 * n
    ensures x % n == if x < n then x else x - n
  {
  }

  /** Going round by conditional subtraction. */
  lemma {:induction false} ContentsAt(r: Ring, i: nat)
    requires RingOk(r) && i < Occupancy(r)
    ensures var k := r.embros + i; Contents(r)[i] == r.buffer[if k < |r.buffer| then k else k - |r.buffer|]
  {
    WrapAround(r.embros + i, |r.buffer|);
  }

  lemma {:induction false} EmptyAndFull(r: Ring)
    requires RingOk(r)
    ensures IsEmpty(r) <==> Contents(r) == []
    ensures IsFull(r) <==> |Contents(r)| == |r.buffer| - 1
  {
  }

  /** A push that is not refused puts its element last. */
  lemma {:induction false} PushAppends(r: Ring, element: int)
    requires RingOk(r) && !IsFull(r)
    ensures RingOk(Pushed(r, element)) && |Pushed(r, element).buffer| == |r.buffer|
    ensures Contents(Pushed(r, element)) == Contents(r) + [element]
  {
    var r' := Pushed(r, element);
    assert Occupancy(r') == Occupancy(r) + 1;
    forall i | 0 <= i < Occupancy(r') ensures Contents(r')[i] == (Contents(r) + [element])[i] {
      ContentsAt(r', i);
      if i < Occupancy(r) {
        ContentsAt(r, i);
      }
    }
  }

  /** A pop takes the first element. */
  lemma {:induction false} PopTakesFirst(r: Ring)
    requires RingOk(r) && !IsEmpty(r)
    ensures RingOk(Popped(r)) && |Popped(r).buffer| == |r.buffer|
    ensures Contents(r) == [r.buffer[r.embros]] + Contents(Popped(r))
  {
    var r' := Popped(r);
    assert Occupancy(r') == Occupancy(r) - 1;
    forall i | 0 <= i < Occupancy(r) ensures Contents(r)[i] == ([r.buffer[r.embros]] + Contents(r'))[i] {
      ContentsAt(r, i);
      if i > 0 {
        ContentsAt(r', i - 1);
      }
    }
  }

  // ---- The queue in place ----

  class Queue {
    var embros: nat
    var piso: nat
    var size: nat
    var pagesServed: int
    var bytesReturned: int
    var buffer: array<int>

    ghost predicate Valid()
      reads this, buffer
    {
      size == buffer.Length && RingOk(View())
    }

    ghost function View(): Ring
      reads this, buffer
    {
      Ring(embros, piso, buffer[..])
    }

    constructor (size: nat)
      ensures fresh(buffer) && this.size == buffer.Length == size && View().embros == View().piso == 0
      ensures size > 0 ==> Valid() && Contents(View()) == []
      ensures pagesServed == 0 && bytesReturned == 0
    {
      embros, piso := 0, 0;
      this.size := size;
      pagesServed, bytesReturned := 0, 0;
      buffer := new int[size];
    }

    method Serve()
      modifies this
      ensures pagesServed == old(pagesServed) + 1 && bytesReturned == old(bytesReturned)
      ensures View() == old(View()) && size == old(size)
    {
      pagesServed := pagesServed + 1;
    }

    method AddBytes(bytes: int)
      modifies this
      ensures bytesReturned == old(bytesReturned) + bytes && pagesServed == old(pagesServed)
      ensures View() == old(View()) && size == old(size)
    {
      bytesReturned := bytesReturned + bytes;
    }

    method Empty() returns (empty: bool)
      requires Valid()
      ensures empty <==> Contents(View()) == []
      ensures empty <==> IsEmpty(View())
    {
      EmptyAndFull(View());
      empty := embros == piso;
    }

    method Full() returns (full: bool)
      requires Valid()
      ensures full <==> |Contents(View())| == size - 1
      ensures full <==> IsFull(View())
    {
      EmptyAndFull(View());
      var newPiso := (piso + 1) % size;
      full := newPiso == embros;
    }

    method Push(element: int) returns (pushed: bool)
      requires Valid()
      modifies this, buffer
      ensures Valid() && buffer == old(buffer) && size == old(size)
      ensures pagesServed == old(pagesServed) && bytesReturned == old(bytesReturned)
      ensures View() == Pushed(old(View()), element)
      ensures pushed <==> |old(Contents(View()))| < size - 1
      ensures Contents(View()) == if pushed then old(Contents(View())) + [element] else old(Contents(View()))
    {
      EmptyAndFull(View());
      var full := Full();
      if !full {
        PushAppends(View(), element);
        buffer[piso] := element;
        piso := (piso + 1) % size;
        return true;
      }
      return false;
    }

    method Pop() returns (popped: bool, element: int)
      requires Valid()
      modifies this
      ensures Valid() && buffer == old(buffer) && size == old(size)
      ensures pagesServed == old(pagesServed) && bytesReturned == old(bytesReturned)
      ensures View() == Popped(old(View()))
      ensures popped <==> old(Contents(View())) != []
      ensures old(Contents(View())) == (if popped then [element] else []) + Contents(View())
    {
      var empty := Empty();
      if !empty {
        PopTakesFirst(View());
        element := buffer[embros];
        embros := (embros + 1) % size;
        return true, element;
      }
      assert [] + Contents(View()) == Contents(View());
      return false, 0;
    }
  }
}
