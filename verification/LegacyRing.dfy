/** The ring buffer that keeps one slot free (legacy/queueing/queue.c).

    Slots are elements of an array; the pointers the code returns are slot numbers. */
module LegacyRing {
  import opened Common

  datatype Ring<T> = Ring(slots: seq<T>, begin: nat, end: nat)

  predicate Valid<T>(r: Ring<T>) {
    0 < |r.slots| <= 0xffff && r.begin < |r.slots| && r.end < |r.slots|
  }

  /** `q_next`, for 16-bit positions within the capacity. */
  function NextPos(pos: nat, capacity: nat): (next: nat)
    requires pos < capacity
    ensures next == if pos + 1 == capacity then 0 else pos + 1
  {
    (pos + 1) % capacity
  }

  predicate Empty<T>(r: Ring<T>) { r.begin == r.end }

  predicate Full<T>(r: Ring<T>)
    requires Valid(r)
  {
    NextPos(r.end, |r.slots|) == r.begin
  }

  /** The queued elements, oldest first. */
  function Contents<T>(r: Ring<T>): seq<T>
    requires Valid(r)
  {
    if r.begin <= r.end then r.slots[r.begin..r.end] else r.slots[r.begin..] + r.slots[..r.end]
  }

  /** `(end + CAPACITY - begin) % CAPACITY` */
  function Distance(begin: nat, end: nat, n: nat): (d: nat)
    requires begin < n && end < n
    ensures d == if begin <= end then end - begin else end + n - begin
  {
    assert begin <= end ==> (end - begin + n) % n == end - begin by {
      if begin <= end { ModAdd(end - begin, n); }
    }
    (end + n - begin) % n
  }

  lemma ModAdd(x: nat, n: nat)
    requires x < n
    ensures (x + n) % n == x
  {
  }

  /** `q_size`, with its 8-bit result. */
  function Size<T>(r: Ring<T>): nat
    requires Valid(r)
  {
    Distance(r.begin, r.end, |r.slots|) % 256
  }

  function Put<T>(r: Ring<T>, e: T): Ring<T>
    requires Valid(r) && !Full(r)
  {
    Ring(r.slots[r.end := e], r.begin, NextPos(r.end, |r.slots|))
  }

  function Get<T>(r: Ring<T>): Ring<T>
    requires Valid(r) && !Empty(r)
  {
    r.(begin := NextPos(r.begin, |r.slots|))
  }

  /** The ring is a queue: a put appends, a get takes the oldest element, whose slot it
      returns; it is empty and full exactly at 0 and capacity - 1 elements. */
  lemma PutAppends<T>(r: Ring<T>, e: T)
    requires Valid(r) && !Full(r)
    ensures Valid(Put(r, e)) && Contents(Put(r, e)) == Contents(r) + [e]
  {
  }

  lemma GetTakesOldest<T>(r: Ring<T>)
    requires Valid(r) && !Empty(r)
    ensures Valid(Get(r)) && Contents(r) == [r.slots[r.begin]] + Contents(Get(r))
  {
    hide NextPos;
  }

  lemma Counts<T>(r: Ring<T>)
    requires Valid(r)
    ensures |Contents(r)| <= |r.slots| - 1
    ensures Empty(r) <==> Contents(r) == []
    ensures Full(r) <==> |Contents(r)| == |r.slots| - 1
    ensures Size(r) == |Contents(r)| % 256
  {
  }

  /** `q_size` is the number of elements exactly while there are fewer than 256; every ring of
      capacity up to 256 stays below that. */
  lemma SizeExactIff<T>(r: Ring<T>)
    requires Valid(r)
    ensures Size(r) == |Contents(r)| <==> |Contents(r)| < 256
    ensures |r.slots| <= 256 ==> Size(r) == |Contents(r)|
  {
    Counts(r);
  }

  // ---------------------------------------------------------------- runs

  datatype Op<T> = PutOp(e: T) | GetOp

  /** The ring after a run of operations, each done when the ring allows it, and the elements
      taken; `None` if one of them would have to wait or would return NULL. */
  function Run<T>(r: Ring<T>, ops: seq<Op<T>>): Option<(Ring<T>, seq<T>)>
    requires Valid(r)
    decreases |ops|
  {
    if ops == [] then Some((r, []))
    else match ops[0]
      case PutOp(e) =>
        if Full(r) then None else PutAppends(r, e); Run(Put(r, e), ops[1..])
      case GetOp =>
        if Empty(r) then None
        else
          GetTakesOldest(r);
          match Run(Get(r), ops[1..])
          case None => None
          case Some((r', out)) => Some((r', [r.slots[r.begin]] + out))
  }

  /** The same run on a bounded queue. */
  function RunQueue<T>(q: seq<T>, bound: nat, ops: seq<Op<T>>): Option<(seq<T>, seq<T>)>
    decreases |ops|
  {
    if ops == [] then Some((q, []))
    else match ops[0]
      case PutOp(e) => if |q| == bound then None else RunQueue(q + [e], bound, ops[1..])
      case GetOp =>
        if q == [] then None
        else match RunQueue(q[1..], bound, ops[1..])
          case None => None
          case Some((q', out)) => Some((q', [q[0]] + out))
  }

  /** Refinement: every run of the ring is the run of a queue of at most capacity - 1 elements. */
  lemma {:induction false} RingIsQueue<T>(r: Ring<T>, ops: seq<Op<T>>)
    requires Valid(r)
    ensures match Run(r, ops)
      case None => RunQueue(Contents(r), |r.slots| - 1, ops) == None
      case Some((r', out)) =>
        && Valid(r') && |r'.slots| == |r.slots|
        && RunQueue(Contents(r), |r.slots| - 1, ops) == Some((Contents(r'), out))
    decreases |ops|
  {
    hide Contents, Empty, Full, NextPos, Size;
    Counts(r);
    if ops != [] {
      match ops[0]
      case PutOp(e) =>
        if !Full(r) {
          PutAppends(r, e);
          RingIsQueue(Put(r, e), ops[1..]);
        }
      case GetOp =>
        if !Empty(r) {
          GetTakesOldest(r);
          assert Contents(r)[1..] == Contents(Get(r));
          RingIsQueue(Get(r), ops[1..]);
        }
    }
  }

  /** The ring after a run of puts, if none of them has to wait. */
  function Puts<T>(r: Ring<T>, es: seq<T>): Option<Ring<T>>
    requires Valid(r)
    decreases |es|
  {
    if es == [] then Some(r)
    else if Full(r) then None
    else PutAppends(r, es[0]); Puts(Put(r, es[0]), es[1..])
  }

  /** The slot a get has returned survives any number of puts until the next get: it is the
      one just before `begin`, which a put never writes. */
  lemma {:induction false} SlotStable<T>(r: Ring<T>, es: seq<T>)
    requires Valid(r) && !Empty(r) && Valid(Get(r)) && Puts(Get(r), es).Some?
    ensures var r' := Puts(Get(r), es).value;
      |r'.slots| == |r.slots| && r'.slots[r.begin] == r.slots[r.begin]
  {
    PutsSpare(Get(r), es, r.begin);
  }

  lemma {:induction false} PutsSpare<T>(r: Ring<T>, es: seq<T>, k: nat)
    requires Valid(r) && k < |r.slots| && NextPos(k, |r.slots|) == r.begin && Puts(r, es).Some?
    ensures var r' := Puts(r, es).value;
      |r'.slots| == |r.slots| && r'.slots[k] == r.slots[k]
    decreases |es|
  {
    if es != [] {
      assert k != r.end;
      PutAppends(r, es[0]);
      PutsSpare(Put(r, es[0]), es[1..], k);
    }
  }

  /** ... and only until then: from a full ring, two gets and two puts overwrite the slot that
      the first get returned. */
  lemma StableOnlyUntilNextGet<T>(r: Ring<T>, a: T, b: T)
    requires Valid(r) && |r.slots| >= 3 && Full(r)
    ensures Valid(Get(r)) && !Empty(Get(r)) && Valid(Get(Get(r)))
    ensures var r' := Puts(Get(Get(r)), [a, b]);
      r'.Some? && |r'.value.slots| == |r.slots| && r'.value.slots[r.begin] == b
  {
    var r2 := Get(Get(r));
    var r3 := Put(r2, a);
    assert r3.end == r.begin;
    assert [a, b][1..] == [b] && [b][1..] == [];
    assert Puts(r3, [b]) == Puts(Put(r3, b), []);
  }

  // ---------------------------------------------------------------- the code

  class Queue<T(0)> {
    const slots: array<T>
    var begin: nat
    var end: nat

    function View(): Ring<T>
      reads this, slots
    {
      Ring(slots[..], begin, end)
    }

    constructor (capacity: nat)
      requires 0 < capacity <= 0xffff
      ensures fresh(slots) && Valid(View()) && slots.Length == capacity && Contents(View()) == []
    {
      slots := new T[capacity];
      begin, end := 0, 0;
    }

    method QSize() returns (n: nat)
      requires Valid(View())
      ensures n == |Contents(View())| % 256
    {
      n := Distance(begin, end, slots.Length) % 256;
      Counts(View());
    }

    /** The slot of the oldest element, or `None` for NULL. */
    method QGet() returns (slot: Option<nat>)
      requires Valid(View())
      modifies this
      ensures slot.None? <==> old(Contents(View())) == []
      ensures slot.None? ==> View() == old(View())
      ensures slot.Some? ==>
        && slot.value == old(begin) < slots.Length
        && View() == Get(old(View())) && Valid(View())
        && old(Contents(View())) == [slots[slot.value]] + Contents(View())
    {
      Counts(View());
      if begin == end { return None; }
      GetTakesOldest(View());
      var retidx := begin;
      begin := NextPos(begin, slots.Length);
      return Some(retidx);
    }

    /** One look of `q_put` at the ring: on a full one it waits, which leaves everything as it
        is until a get makes room; otherwise it stores the element. */
    method QPut(e: T) returns (slot: Option<nat>)
      requires Valid(View())
      modifies this, slots
      ensures Valid(View())
      ensures slot.None? <==> |old(Contents(View()))| == slots.Length - 1
      ensures slot.None? ==> View() == old(View())
      ensures slot.Some? ==>
        && slot.value == old(end) < slots.Length && slots[slot.value] == e
        && View() == Put(old(View()), e)
        && Contents(View()) == old(Contents(View())) + [e]
    {
      Counts(View());
      if NextPos(end, slots.Length) == begin { return None; }
      PutAppends(View(), e);
      slots[end] := e;
      slot := Some(end);
      end := NextPos(end, slots.Length);
    }
  }
}
