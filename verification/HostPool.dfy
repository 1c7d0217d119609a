/** The slave's pool of endpoints: the shared control slot and fifteen others (hcd_rp2040.c). */
module HostPool {
  import opened Common

  const SLOTS := 16
  const EPX_DATA := 0x180        // epx_data, as an offset in the USB memory
  const NOT_INTERRUPT := 255

  datatype PoolEp = PoolEp(
    configured: bool, epAddr: byte, devAddr: byte, rx: bool, mps: u16, interrupt: bool,
    interruptNum: nat, buffer: nat)

  const FREE := PoolEp(false, 0, 0, false, 0, false, 0, 0)

  /** An endpoint descriptor, as far as opening it looks at it. */
  datatype Desc = Desc(epAddr: byte, interrupt: bool, mps: u16, interval: byte)

  function Blank(n: nat): (eps: seq<PoolEp>)
    ensures |eps| == n && forall i :: 0 <= i < n ==> eps[i] == FREE
  {
    if n == 0 then [] else Blank(n - 1) + [FREE]
  }

  type Slots = eps: seq<PoolEp> | |eps| == SLOTS witness Blank(SLOTS)

  /** The pool and whether an assertion has failed. */
  datatype Pool = Pool(eps: Slots, halted: bool)

  /** The 7 bytes of an endpoint descriptor. */
  const DESC_LENGTH := 7

  function DescOf(b: seq<byte>): Desc
    requires |b| >= DESC_LENGTH
  {
    Desc(b[2], b[3] % 4 == 3, Word(b[4], b[5]) % 0x800, b[6])
  }

  /** The first free slot from `i`; the last slot when none is free. */
  function FreeFrom(eps: Slots, i: nat): (k: nat)
    requires 1 <= i < SLOTS
    ensures i <= k < SLOTS
    decreases eps, SLOTS - i
  {
    if !eps[i].configured || i == SLOTS - 1 then i else FreeFrom(eps, i + 1)
  }

  /** `_hw_endpoint_allocate`: slot, interrupt number and buffer for an endpoint. */
  function Allocate(eps: Slots, d: Desc): (nat, nat, nat) {
    if !d.interrupt && d.epAddr == 0 then (0, NOT_INTERRUPT, EPX_DATA)
    else
      var k := FreeFrom(eps, 1);
      if !d.interrupt then (k, NOT_INTERRUPT, EPX_DATA)
      else
        var num := if eps[k].configured then eps[k].interruptNum else k - 1;
        (k, num, EPX_DATA + 64 * (num + 2))
  }

  /** The search for a free slot writes its interrupt number into it. */
  function Numbered(eps: Slots, k: nat): Slots
    requires k < SLOTS
  {
    if k == 0 || eps[k].configured then eps else eps[k := eps[k].(interruptNum := k - 1)]
  }

  /** `hcd_edpt_open`.  A polled endpoint has to be an IN endpoint. */
  function Open(p: Pool, d: Desc, devAddr: byte): Pool {
    var (k, num, buffer) := Allocate(p.eps, d);
    if d.interval != 0 && d.epAddr < 0x80 then Pool(Numbered(p.eps, k), true)
    else p.(eps := p.eps[k := PoolEp(true, d.epAddr, devAddr, d.epAddr >= 0x80, d.mps, d.interrupt, num, buffer)])
  }

  /** `get_dev_ep`, from slot `i`. */
  function LookupFrom(eps: Slots, epAddr: byte, i: nat): (k: Option<nat>)
    ensures k.Some? ==> i <= k.value < SLOTS
    decreases eps, SLOTS - i
  {
    if i >= SLOTS then None
    else if eps[i].configured && eps[i].epAddr == epAddr then Some(i)
    else LookupFrom(eps, epAddr, i + 1)
  }

  function Lookup(eps: Slots, epAddr: byte): (k: Option<nat>)
    ensures k == Some(0) <==> Number(epAddr) == 0
    ensures k.Some? ==> k.value < SLOTS
  {
    if Number(epAddr) == 0 then Some(0) else LookupFrom(eps, epAddr, 1)
  }

  function Run(ds: seq<Desc>, devAddr: byte): Pool {
    if ds == [] then Pool(Blank(SLOTS), false)
    else
      var p := Run(ds[..|ds| - 1], devAddr);
      if p.halted then p else Open(p, ds[|ds| - 1], devAddr)
  }

  ghost predicate Distinct(ds: seq<Desc>) {
    && (forall i :: 0 <= i < |ds| ==> ds[i].epAddr != 0)
    && (forall i, j :: 0 <= i < j < |ds| ==> ds[i].epAddr != ds[j].epAddr)
  }

  /** Slot `i + 1` as opening the `i`th endpoint leaves it. */
  function Entry(d: Desc, i: nat, devAddr: byte): PoolEp {
    PoolEp(true, d.epAddr, devAddr, d.epAddr >= 0x80, d.mps, d.interrupt,
           if d.interrupt then i else NOT_INTERRUPT,
           if d.interrupt then EPX_DATA + 64 * (i + 2) else EPX_DATA)
  }

  ghost predicate Holds(p: Pool, ds: seq<Desc>, devAddr: byte) {
    && |ds| < SLOTS
    && (forall i :: 1 <= i <= |ds| ==> p.eps[i] == Entry(ds[i - 1], i - 1, devAddr))
    && (forall i :: |ds| < i < SLOTS ==> !p.eps[i].configured)
  }

  lemma FirstFree(eps: Slots, i: nat, k: nat)
    requires 1 <= i <= k < SLOTS
    requires forall j :: i <= j < k ==> eps[j].configured
    requires !eps[k].configured || k == SLOTS - 1
    ensures FreeFrom(eps, i) == k
    decreases k - i
  {
    if i < k {
      FirstFree(eps, i + 1, k);
    }
  }

  lemma FirstMatch(eps: Slots, epAddr: byte, i: nat, k: nat)
    requires i <= k <= SLOTS
    requires forall j :: i <= j < k ==> !(eps[j].configured && eps[j].epAddr == epAddr)
    requires k < SLOTS ==> eps[k].configured && eps[k].epAddr == epAddr
    ensures LookupFrom(eps, epAddr, i) == if k < SLOTS then Some(k) else None
    decreases k - i
  {
    if i < k {
      FirstMatch(eps, epAddr, i + 1, k);
    }
  }

  /** Fifteen opens fill the slots in order. */
  lemma {:induction false} Fills(ds: seq<Desc>, devAddr: byte)
    requires |ds| < 16 && Distinct(ds) && !Run(ds, devAddr).halted
    ensures Holds(Run(ds, devAddr), ds, devAddr)
    decreases |ds|
  {
    if ds != [] {
      var n := |ds| - 1;
      Fills(ds[..n], devAddr);
      FirstFree(Run(ds[..n], devAddr).eps, 1, n + 1);
    }
  }

  /** After at most fifteen opens of distinct nonzero addresses, looking an address up finds
      the entry opened for it exactly when its endpoint number is not 0. */
  lemma LookupFindsIff(ds: seq<Desc>, devAddr: byte, j: nat)
    requires |ds| < 16 && Distinct(ds) && !Run(ds, devAddr).halted && j < |ds|
    ensures Run(ds, devAddr).eps[j + 1] == Entry(ds[j], j, devAddr)
    ensures Lookup(Run(ds, devAddr).eps, ds[j].epAddr) == Some(j + 1) <==> Number(ds[j].epAddr) != 0
  {
    Fills(ds, devAddr);
    var eps := Run(ds, devAddr).eps;
    FirstMatch(eps, ds[j].epAddr, 1, j + 1);
  }

  /** From the fifteenth open on, the last slot goes to whoever comes last. */
  ghost predicate Contended(p: Pool, ds: seq<Desc>, devAddr: byte) {
    && |ds| >= SLOTS - 1
    && (forall i :: 1 <= i < SLOTS - 1 ==> p.eps[i] == Entry(ds[i - 1], i - 1, devAddr))
    && (var d, last := ds[|ds| - 1], p.eps[SLOTS - 1];
        last.configured && last.epAddr == d.epAddr && last.mps == d.mps && last.interrupt == d.interrupt)
  }

  lemma {:induction false} Contends(ds: seq<Desc>, devAddr: byte)
    requires |ds| >= SLOTS - 1 && Distinct(ds) && !Run(ds, devAddr).halted
    ensures Contended(Run(ds, devAddr), ds, devAddr)
    decreases |ds|
  {
    if |ds| == SLOTS - 1 {
      Fills(ds, devAddr);
    } else {
      var before := ds[..|ds| - 1];
      Contends(before, devAddr);
      FirstFree(Run(before, devAddr).eps, 1, SLOTS - 1);
    }
  }

  /** However many endpoints are opened after the fifteenth: the first fourteen are still found
      where they were, the last one is found in the last slot, and all between are lost. */
  lemma LaterOpensEvict(ds: seq<Desc>, devAddr: byte, j: nat)
    requires |ds| >= SLOTS - 1 && Distinct(ds) && !Run(ds, devAddr).halted
    requires j < |ds| && Number(ds[j].epAddr) != 0
    ensures Lookup(Run(ds, devAddr).eps, ds[j].epAddr) ==
      if j < 14 then Some(j + 1) else if j == |ds| - 1 then Some(15) else None
    ensures j < 14 ==> Run(ds, devAddr).eps[j + 1] == Entry(ds[j], j, devAddr)
  {
    Contends(ds, devAddr);
    FirstMatch(Run(ds, devAddr).eps, ds[j].epAddr, 1,
               if j < SLOTS - 2 then j + 1 else if j == |ds| - 1 then SLOTS - 1 else SLOTS);
  }

  /** A polled endpoint has to be an IN endpoint. */
  predicate Pollable(d: Desc) { d.interval == 0 || d.epAddr >= 0x80 }

  /** Opening endpoints trips the assertion exactly if one of them is polled and not IN. */
  lemma {:induction false} RunHaltsIff(ds: seq<Desc>, devAddr: byte)
    ensures Run(ds, devAddr).halted <==> exists d :: d in ds && !Pollable(d)
    decreases |ds|
  {
    hide Numbered, Allocate;
    if ds != [] {
      var front, last := ds[..|ds| - 1], ds[|ds| - 1];
      RunHaltsIff(front, devAddr);
      assert ds == front + [last] && last in ds;
      assert forall d :: d in ds <==> d in front || d == last;
      assert !Run(front, devAddr).halted ==> (Open(Run(front, devAddr), last, devAddr).halted <==> !Pollable(last));
    }
  }

  /** From the fifteenth open on the last slot keeps its interrupt number while only interrupt
      endpoints come; any other leaves it without one for good. */
  predicate AllInterrupt(ds: seq<Desc>) {
    forall i :: SLOTS - 2 <= i < |ds| ==> ds[i].interrupt
  }

  ghost predicate LastSlot(p: Pool, ds: seq<Desc>) {
    && |ds| >= SLOTS - 1
    && var last := p.eps[SLOTS - 1];
      && last.configured && last.interrupt == ds[|ds| - 1].interrupt
      && last.interruptNum == (if AllInterrupt(ds) then SLOTS - 2 else NOT_INTERRUPT)
      && (last.interrupt ==> last.buffer == EPX_DATA + 64 * (last.interruptNum + 2))
  }

  lemma {:induction false} LastSlotIs(ds: seq<Desc>, devAddr: byte)
    requires |ds| >= SLOTS - 1 && Distinct(ds) && !Run(ds, devAddr).halted
    ensures LastSlot(Run(ds, devAddr), ds)
    decreases |ds|
  {
    if |ds| == SLOTS - 1 {
      Fills(ds, devAddr);
    } else {
      var before := ds[..|ds| - 1];
      LastSlotIs(before, devAddr);
      Contends(before, devAddr);
      FirstFree(Run(before, devAddr).eps, 1, SLOTS - 1);
      assert forall i :: 0 <= i < |before| ==> before[i] == ds[i];
    }
  }

  predicate HasInterrupt(e: PoolEp) { e.configured && e.interrupt }

  /** A number of its own below 15, and 64 bytes behind the control endpoint's first 128, within
      the USB memory. */
  predicate Inside(e: PoolEp) {
    e.interruptNum < 15 && 0x180 + 128 <= e.buffer && e.buffer + 64 <= 0x1000
  }

  ghost predicate InsideAndApart(eps: Slots) {
    && (forall i :: 1 <= i < SLOTS && HasInterrupt(eps[i]) ==> Inside(eps[i]))
    && (forall i, j :: 1 <= i < j < SLOTS && HasInterrupt(eps[i]) && HasInterrupt(eps[j]) ==>
          eps[i].interruptNum != eps[j].interruptNum && eps[i].buffer + 64 <= eps[j].buffer)
  }

  /** An interrupt endpoint is opened after the slots are full, and since the fifteenth open some
      other endpoint has had the last slot. */
  predicate Stray(ds: seq<Desc>) {
    |ds| >= SLOTS && ds[|ds| - 1].interrupt && !AllInterrupt(ds)
  }

  /** However many endpoints are opened: interrupt endpoints have numbers of their own, and buffers
      inside the memory and apart from each other and from the control endpoint's, if and only
      if the endpoint opened last is not one that finds the last slot without a number. */
  lemma InterruptBuffersApart(ds: seq<Desc>, devAddr: byte)
    requires Distinct(ds) && forall d :: d in ds ==> Pollable(d)
    ensures InsideAndApart(Run(ds, devAddr).eps) <==> !Stray(ds)
    ensures Stray(ds) ==>
      && Run(ds, devAddr).eps[SLOTS - 1].interruptNum == NOT_INTERRUPT
      && Run(ds, devAddr).eps[SLOTS - 1].buffer == EPX_DATA + 64 * (NOT_INTERRUPT + 2)
  {
    RunHaltsIff(ds, devAddr);
    var p := Run(ds, devAddr);
    if |ds| < SLOTS {
      Fills(ds, devAddr);
    } else {
      LastSlotIs(ds, devAddr);
      Contends(ds, devAddr);
      assert Stray(ds) ==> HasInterrupt(p.eps[SLOTS - 1]) && !Inside(p.eps[SLOTS - 1]);
    }
  }

  // ---------------------------------------------------------------- in the descriptor's bytes

  /** The slot that opening an endpoint takes: the first free one, or the last when none is. */
  predicate TakesSlot(eps: Slots, k: nat) {
    && 1 <= k < SLOTS && (k == SLOTS - 1 || !eps[k].configured)
    && forall i :: 1 <= i < k ==> eps[i].configured
  }

  /** A slot as the bytes of an endpoint descriptor ask for it; `free` if nobody had it before.
      Section 9.6.6 of the USB 2.0 specification. */
  predicate SlotOf(e: PoolEp, k: nat, desc: seq<byte>, devAddr: byte, free: bool)
    requires |desc| >= 7
  {
    && e.configured && e.epAddr == desc[2] && e.devAddr == devAddr
    && (e.rx <==> desc[2] >= 0x80)
    && e.mps == ((desc[5] as int) * 256 + desc[4]) % 2048
    && (e.interrupt <==> desc[3] % 4 == 3)
    && (!e.interrupt ==> e.interruptNum == 255 && e.buffer == 0x180)
    && (e.interrupt && free ==> e.interruptNum == k - 1 && e.buffer == 0x180 + 64 * (k + 1))
  }

  /** The slave can open an endpoint: its descriptor is whole, its number is not 0, and a polled
      endpoint is an IN endpoint. */
  predicate Openable(desc: seq<byte>) {
    |desc| >= 7 && desc[2] % 16 != 0 && (desc[6] == 0 || desc[2] >= 0x80)
  }

  lemma TakesFree(eps: Slots, i: nat)
    requires 1 <= i < SLOTS && forall j :: 1 <= j < i ==> eps[j].configured
    ensures TakesSlot(eps, FreeFrom(eps, i))
    decreases SLOTS - i
  {
    if eps[i].configured && i < SLOTS - 1 { TakesFree(eps, i + 1); }
  }

  /** Opening an endpoint sets up one slot as the bytes of its descriptor say and touches no other;
      a polled OUT endpoint trips the assertion instead. */
  lemma OpenSays(p: Pool, desc: seq<byte>, devAddr: byte)
    requires |desc| >= 7 && desc[2] != 0
    ensures var p' := Open(p, DescOf(desc), devAddr);
      if desc[6] != 0 && desc[2] < 0x80 then p'.halted
      else
        var k := FreeFrom(p.eps, 1);
        && p'.halted == p.halted && TakesSlot(p.eps, k) && SlotOf(p'.eps[k], k, desc, devAddr, !p.eps[k].configured)
        && p'.eps == p.eps[k := p'.eps[k]]
  {
    TakesFree(p.eps, 1);
  }

  // ---------------------------------------------------------------- the code

  class EndpointPool {
    const eps: array<PoolEp>
    var halted: bool

    predicate Valid() { eps.Length == SLOTS }

    function View(): Pool
      requires Valid()
      reads this, eps
    {
      Pool(eps[..], halted)
    }

    constructor ()
      ensures fresh(eps) && Valid() && View() == Pool(Blank(SLOTS), false)
    {
      eps := new PoolEp[SLOTS](_ => FREE);
      halted := false;
      new;
      assert eps[..] == Blank(SLOTS);
    }

    /** Returns the first free slot with its interrupt number written into it, or the last slot,
        untouched, when all are taken. */
    method NextFreeInterruptEp() returns (k: nat)
      requires Valid()
      modifies eps
      ensures k == FreeFrom(old(eps[..]), 1)
      ensures eps[..] == if old(eps[k].configured) then old(eps[..])
                         else old(eps[..])[k := old(eps[k]).(interruptNum := k - 1)]
      ensures old(eps[k].configured) ==> k == SLOTS - 1
      ensures forall i :: 1 <= i < k ==> old(eps[i].configured)
    {
      k := 1;
      while k < SLOTS
        invariant 1 <= k < SLOTS && FreeFrom(eps[..], 1) == FreeFrom(eps[..], k)
        invariant eps[..] == old(eps[..]) && forall i :: 1 <= i < k ==> eps[i].configured
        decreases SLOTS - k
      {
        if !eps[k].configured {
          eps[k] := eps[k].(interruptNum := k - 1);
          return;
        }
        if k == SLOTS - 1 { return; }
        k := k + 1;
      }
    }

    /** The endpoint is set up in the slot allocated to it, no other slot is touched, and a
        polled OUT endpoint trips an assertion. */
    method HcdEdptOpen(desc: seq<byte>, devAddr: byte)
      requires Valid() && !halted && |desc| >= DESC_LENGTH
      modifies this, eps
      ensures View() == Open(old(View()), DescOf(desc), devAddr)
      ensures halted <==> desc[6] != 0 && desc[2] < 0x80
      ensures !halted && desc[2] != 0 ==> exists k: nat ::
        && TakesSlot(old(eps[..]), k) && SlotOf(eps[k], k, desc, devAddr, !old(eps[..])[k].configured)
        && eps[..] == old(eps[..])[k := eps[k]]
      ensures !halted && desc[2] == 0 ==> exists k: nat | k < SLOTS ::
        && eps[k].configured && eps[k].epAddr == desc[2] && eps[k].devAddr == devAddr
        && eps[k].mps == ((desc[5] as int) * 256 + desc[4]) % 2048
        && forall i | 0 <= i < SLOTS && i != k :: eps[i] == old(eps[i])
    {
      hide SlotOf, TakesSlot, FreeFrom;
      var d := DescOf(desc);
      if d.epAddr != 0 { OpenSays(View(), desc, devAddr); }
      var k, num, buffer := 0, NOT_INTERRUPT, EPX_DATA;
      if d.interrupt {
        k := NextFreeInterruptEp();
        num := eps[k].interruptNum;
        buffer := EPX_DATA + 64 * (num + 2);
      } else if d.epAddr != 0 {
        k := NextFreeInterruptEp();
      }
      if d.interval != 0 && d.epAddr < 0x80 {
        halted := true;
        return;
      }
      eps[k] := PoolEp(true, d.epAddr, devAddr, d.epAddr >= 0x80, d.mps, d.interrupt, num, buffer);
    }

    /** The control endpoint for number 0; else the first configured slot with that address, and
        none exactly when there is no such slot. */
    method GetDevEp(epAddr: byte) returns (r: Option<nat>)
      requires Valid()
      ensures r == Lookup(eps[..], epAddr)
      ensures r.Some? && Number(epAddr) != 0 ==>
        && 1 <= r.value < SLOTS && eps[r.value].configured && eps[r.value].epAddr == epAddr
        && forall i :: 1 <= i < r.value ==> !(eps[i].configured && eps[i].epAddr == epAddr)
      ensures r.None? ==> forall i :: 1 <= i < SLOTS ==> !(eps[i].configured && eps[i].epAddr == epAddr)
    {
      if Number(epAddr) == 0 { return Some(0); }
      var i := 1;
      while i < SLOTS
        invariant 1 <= i <= SLOTS && LookupFrom(eps[..], epAddr, 1) == LookupFrom(eps[..], epAddr, i)
        invariant forall j :: 1 <= j < i ==> !(eps[j].configured && eps[j].epAddr == epAddr)
      {
        if eps[i].configured && eps[i].epAddr == epAddr { return Some(i); }
        i := i + 1;
      }
      return None;
    }
  }
}
