/** The order in which the device services finished buffers (dcd_rp2040.c).

    Bit 2n of the status register is IN and bit 2n + 1 is OUT on endpoint n; the register is
    the set of its bits. */
module BuffStatus {
  import opened Common

  const BITS := 32
  const EP1_IN := 2

  /** The bits i, i + 2, i + 4, ... that are set. */
  function Every(s: set<nat>, i: nat): seq<nat>
    decreases s, BITS - i
  {
    if i >= BITS then [] else (if i in s then [i] else []) + Every(s, i + 2)
  }

  /** Some OUT buffer of a non-control endpoint is finished. */
  predicate SomeOut(s: set<nat>) { Every(s, 3) != [] }

  /** The bits one call services, in order. */
  function Order(s: set<nat>): seq<nat> {
    Control(s) + Every(s, 3) + Every(LeftForIn(s), 2)
  }

  function Control(s: set<nat>): seq<nat> {
    (if 1 in s then [1] else []) + (if 0 in s then [0] else [])
  }

  /** Control endpoint first, OUT before IN, then the other OUTs and the other INs. */
  function Priority(bit: nat): nat {
    if bit == 1 then 0 else if bit == 0 then 1 else if bit % 2 == 1 then bit else BITS + bit
  }

  lemma EveryHas(s: set<nat>, i: nat, b: nat)
    ensures b in Every(s, i) <==> b in s && i <= b < BITS && b % 2 == i % 2
    decreases BITS - i
  {
    if i < BITS {
      EveryHas(s, i + 2, b);
    }
  }

  lemma EveryAscends(s: set<nat>, i: nat, x: nat, y: nat)
    requires x < y < |Every(s, i)|
    ensures Every(s, i)[x] < Every(s, i)[y]
    decreases BITS - i
  {
    var rest := Every(s, i + 2);
    assert Every(s, i) == if i in s then [i] + rest else rest;
    if i !in s {
      EveryAscends(s, i + 2, x, y);
      hide Every;
    } else if x == 0 {
      hide Every;
      EveryHas(s, i + 2, rest[y - 1]);
    } else {
      EveryAscends(s, i + 2, x - 1, y - 1);
      hide Every;
    }
  }

  /** The bits left once endpoint 1 IN has been put off. */
  function LeftForIn(s: set<nat>): set<nat> {
    if SomeOut(s) then s - {EP1_IN} else s
  }

  lemma SomeOutIff(s: set<nat>)
    ensures SomeOut(s) <==> exists b | b in s :: b % 2 == 1 && 3 <= b < BITS
  {
    if SomeOut(s) {
      EveryHas(s, 3, Every(s, 3)[0]);
    }
    forall b | b in s && b % 2 == 1 && 3 <= b < BITS ensures SomeOut(s) {
      EveryHas(s, 3, b);
    }
  }

  /** One call services every bit of the snapshot, except that endpoint 1 IN is put off exactly
      when some other OUT is finished. */
  lemma ServicesAll(s: set<nat>, bit: nat)
    requires forall b | b in s :: b < 32
    ensures bit in Order(s) <==> bit in s && !(bit == 2 && exists b | b in s :: b % 2 == 1 && 3 <= b < 32)
  {
    SomeOutIff(s);
    EveryHas(s, 3, bit);
    EveryHas(LeftForIn(s), 2, bit);
  }

  /** Which part of the order an index falls into. */
  lemma Part(s: set<nat>, x: nat)
    requires x < |Order(s)|
    ensures var c, o := |Control(s)|, |Every(s, 3)|;
      Order(s)[x] ==
        if x < c then Control(s)[x]
        else if x < c + o then Every(s, 3)[x - c]
        else Every(LeftForIn(s), 2)[x - c - o]
  {
  }

  /** ... each once, in strictly ascending priority. */
  lemma ServicesInOrder(s: set<nat>, x: nat, y: nat)
    requires x < y < |Order(s)|
    ensures Priority(Order(s)[x]) < Priority(Order(s)[y])
  {
    var c, o := |Control(s)|, |Every(s, 3)|;
    Part(s, x);
    Part(s, y);
    PartPriority(s, x);
    PartPriority(s, y);
    hide Order;
    if c <= x && y < c + o {
      EveryAscends(s, 3, x - c, y - c);
    } else if c + o <= x {
      EveryAscends(LeftForIn(s), 2, x - c - o, y - c - o);
    }
    hide Every;
    hide LeftForIn;
  }

  /** The range of priorities of the part an index falls into. */
  lemma PartPriority(s: set<nat>, x: nat)
    requires x < |Order(s)|
    ensures var c, o, b := |Control(s)|, |Every(s, 3)|, Order(s)[x];
      if x < c then Priority(b) < 2 && (c == 2 ==> Priority(b) == x)
      else if x < c + o then Priority(b) == b && 3 <= b < BITS
      else Priority(b) == BITS + b
  {
    Part(s, x);
    var c, o := |Control(s)|, |Every(s, 3)|;
    hide Order;
    if c <= x < c + o {
      EveryHas(s, 3, Every(s, 3)[x - c]);
    } else if c + o <= x {
      EveryHas(LeftForIn(s), 2, Every(LeftForIn(s), 2)[x - c - o]);
    }
    hide Every;
    hide LeftForIn;
  }

  /** What servicing the bits `done` of register `before` leaves of it: the others stay pending,
      and one of `done` is set again only if the hardware has raised it anew. */
  ghost predicate Left(before: set<nat>, done: seq<nat>, after: set<nat>, raised: set<nat>) {
    forall b: nat ::
      && (b in before && b !in done ==> b in after)
      && (b in after ==> (b in before && b !in done) || b in raised)
  }

  lemma LeftNext(before: set<nat>, done: seq<nat>, mid: set<nat>, raised: set<nat>,
                 i: nat, after: set<nat>, raised': set<nat>)
    requires Left(before, done, mid, raised) && Left(mid, [i], after, raised') && raised <= raised'
    ensures Left(before, done + [i], after, raised')
  {
  }

  lemma NothingLeft(remaining: set<nat>, i: nat)
    requires remaining == {} || i >= BITS
    ensures Every(remaining, i) == []
  {
    if Every(remaining, i) != [] {
      EveryHas(remaining, i, Every(remaining, i)[0]);
    }
  }

  lemma EveryStep(s: set<nat>, i: nat, before: seq<nat>, done: seq<nat>)
    requires i < BITS
    ensures i in s ==>
      before + Every(s, i) == (before + [i]) + Every(s, i + 2) && (done + before) + [i] == done + (before + [i])
    ensures i !in s ==> before + Every(s, i) == before + Every(s, i + 2)
  {
    assert Every(s, i) == if i in s then [i] + Every(s, i + 2) else Every(s, i + 2);
    hide Every;
    Regroups(before, [i], Every(s, i + 2));
    Regroups(done, before, [i]);
  }

  /** While an OUT bit is left, the loop goes on. */
  lemma OutLeft(snapshot: set<nat>, remaining: set<nat>, i: nat)
    requires remaining == snapshot || remaining == snapshot - {EP1_IN}
    requires i % 2 == 1
    ensures Every(snapshot, i) != [] ==> remaining != {} && i < BITS
  {
    if Every(snapshot, i) != [] {
      var b := Every(snapshot, i)[0];
      EveryHas(snapshot, i, b);
      assert b in remaining;
    }
  }

  class StatusRegister {
    var bufStatus: set<nat>
    var serviced: seq<nat>
    ghost var raised: set<nat>   // bits the hardware has set since the snapshot

    /** Clears the bit and lets the endpoint go on; the handler's effect is its place in
        `serviced`.  The controller may finish further buffers meanwhile. */
    method HandleBit(i: nat)
      modifies this
      ensures serviced == old(serviced) + [i]
      ensures Left(old(bufStatus), [i], bufStatus, raised) && old(raised) <= raised
    {
      var more: set<nat> :| true;
      bufStatus := bufStatus - {i} + more;
      raised := raised + more;
      serviced := serviced + [i];
    }

    /** OUT endpoints; each one serviced takes endpoint 1 IN off the snapshot. */
    method HandleOuts(snapshot: set<nat>, ghost before: set<nat>, ghost done: seq<nat>) returns (remaining: set<nat>)
      requires Left(before, done, bufStatus, raised)
      modifies this
      ensures Left(before, done + Every(snapshot, 3), bufStatus, raised)
      ensures serviced == old(serviced) + Every(snapshot, 3) && remaining == LeftForIn(snapshot)
    {
      hide Left, Every;
      var i := 3;
      ghost var outs: seq<nat> := [];
      remaining := snapshot;
      assert done + outs == done && outs + Every(snapshot, 3) == Every(snapshot, 3);
      while remaining != {} && i < BITS
        invariant i >= 3 && i % 2 == 1 && Every(snapshot, 3) == outs + Every(snapshot, i)
        invariant remaining == if outs == [] then snapshot else snapshot - {EP1_IN}
        invariant Left(before, done + outs, bufStatus, raised) && serviced == old(serviced) + outs
        decreases BITS - i
      {
        EveryStep(snapshot, i, outs, done);
        if i in remaining {
          ghost var mid, up := bufStatus, raised;
          HandleBit(i);
          LeftNext(before, done + outs, mid, up, i, bufStatus, raised);
          outs := outs + [i];
          remaining := remaining - {EP1_IN};
        }
        i := i + 2;
      }
      OutLeft(snapshot, remaining, i);
      assert outs + [] == outs;
    }

    /** IN endpoints. */
    method HandleIns(remaining: set<nat>, ghost before: set<nat>, ghost done: seq<nat>)
      requires Left(before, done, bufStatus, raised)
      modifies this
      ensures Left(before, done + Every(remaining, 2), bufStatus, raised)
      ensures serviced == old(serviced) + Every(remaining, 2)
    {
      hide Left, Every;
      var i := 2;
      ghost var ins: seq<nat> := [];
      assert done + ins == done && ins + Every(remaining, 2) == Every(remaining, 2);
      while remaining != {} && i < BITS
        invariant i >= 2 && Every(remaining, 2) == ins + Every(remaining, i)
        invariant Left(before, done + ins, bufStatus, raised) && serviced == old(serviced) + ins
        decreases BITS - i
      {
        EveryStep(remaining, i, ins, done);
        if i in remaining {
          ghost var mid, up := bufStatus, raised;
          HandleBit(i);
          LeftNext(before, done + ins, mid, up, i, bufStatus, raised);
          ins := ins + [i];
        }
        i := i + 2;
      }
      NothingLeft(remaining, i);
      assert ins + [] == ins;
    }

    /** Every bit of the register not serviced stays pending. */
    method HandleBuffStatus()
      modifies this
      ensures serviced == old(serviced) + Order(old(bufStatus))
      ensures Left(old(bufStatus), Order(old(bufStatus)), bufStatus, raised)
    {
      raised := {};
      var remaining := bufStatus;
      ghost var done: seq<nat> := [];
      assert Left(bufStatus, done, bufStatus, raised);
      if 1 in remaining {
        HandleBit(1);
        done := [1];
      }
      if 0 in remaining {
        ghost var mid, up := bufStatus, raised;
        HandleBit(0);
        LeftNext(old(bufStatus), done, mid, up, 0, bufStatus, raised);
        done := done + [0];
      }
      hide Left;
      var ins := HandleOuts(remaining, old(bufStatus), done);
      HandleIns(ins, old(bufStatus), done + Every(remaining, 3));
    }
  }
}
