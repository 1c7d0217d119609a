/** The device's bump allocator for endpoint buffers in the USB memory (dcd_rp2040.c).

    Addresses, sizes and register words are numbers; `Xor` and `Or` are the code's bit operations
    on them.  The layout of the USB memory is that of the RP2040 device-mode registers. */
module DpramAllocator {

  const BASE := 0x5010_0000
  const SIZE := 0x1000         // USB_DPRAM_MAX
  const FREE := BASE + 0x180   // epx_data
  const ENABLE := 0x8000_0000
  const TYPE_LSB := 26
  const TYPE_UNIT := 0x400_0000
  const BULK := 2
  const ENDPOINTS := 16

  // ---------------------------------------------------------------- words

  function And(a: nat, b: nat): (r: nat)
    ensures r <= a && r <= b
  {
    if a == 0 || b == 0 then 0 else (if a % 2 == 1 && b % 2 == 1 then 1 else 0) + 2 * And(a / 2, b / 2)
  }

  function Xor(a: nat, b: nat): nat
    decreases a + b
  {
    if a == 0 then b else if b == 0 then a else (a + b) % 2 + 2 * Xor(a / 2, b / 2)
  }

  function Or(a: nat, b: nat): nat
    decreases a + b
  {
    if a == 0 then b else if b == 0 then a
    else (if a % 2 == 1 || b % 2 == 1 then 1 else 0) + 2 * Or(a / 2, b / 2)
  }

  lemma {:induction false} XorIs(a: nat, b: nat)
    ensures Xor(a, b) + 2 * And(a, b) == a + b
    decreases a + b
  {
    if a > 0 && b > 0 {
      XorIs(a / 2, b / 2);
    }
  }

  lemma {:induction false} OrIs(a: nat, b: nat)
    ensures Or(a, b) + And(a, b) == a + b
    decreases a + b
  {
    if a > 0 && b > 0 {
      OrIs(a / 2, b / 2);
    }
  }

  function Shl(x: nat, k: nat): nat { if k == 0 then x else 2 * Shl(x, k - 1) }

  lemma {:induction false} ShlAgain(x: nat, j: nat, k: nat)
    ensures Shl(Shl(x, j), k) == Shl(x, j + k)
  {
    if k > 0 {
      ShlAgain(x, j, k - 1);
    }
  }

  /** The shift counts that occur, as multiplications. */
  lemma Shifts(x: nat)
    ensures Shl(x, 16) == 0x1_0000 * x && Shl(x, 20) == 0x10_0000 * x && Shl(x, 26) == TYPE_UNIT * x
  {
    ShiftFour(x);
    ShiftFour(Shl(x, 4));
    ShiftFour(Shl(x, 8));
    ShiftFour(Shl(x, 12));
    ShiftFour(Shl(x, 16));
    ShlAgain(x, 4, 4);
    ShlAgain(x, 8, 4);
    ShlAgain(x, 12, 4);
    ShlAgain(x, 16, 4);
    ShiftSix(Shl(x, 20));
    ShlAgain(x, 20, 6);
  }

  lemma ShiftFour(x: nat)
    ensures Shl(x, 4) == 16 * x
  {
    assert Shl(x, 4) == 2 * Shl(x, 3) && Shl(x, 3) == 2 * Shl(x, 2);
    assert Shl(x, 2) == 2 * Shl(x, 1) && Shl(x, 1) == 2 * Shl(x, 0);
  }

  lemma ShiftSix(x: nat)
    ensures Shl(x, 6) == 64 * x
  {
    ShiftFour(x);
    assert Shl(x, 6) == 2 * Shl(x, 5) && Shl(x, 5) == 2 * Shl(x, 4);
  }

  lemma {:induction false} AndSelf(a: nat)
    ensures And(a, a) == a
  {
    if a > 0 {
      AndSelf(a / 2);
    }
  }

  /** One more bit at the low end of each number. */
  lemma AndOneMore(a: nat, r: nat, b: nat, s: nat, c: nat)
    requires And(a + r / 2, b + s / 2) == c + And(r / 2, s / 2)
    ensures And(2 * a + r, 2 * b + s) == 2 * c + And(r, s)
  {
    AndHalves(2 * a + r, 2 * b + s);
    AndHalves(r, s);
    hide And;
    HalfOf(a, r);
    HalfOf(b, s);
  }

  lemma AndHalves(a: nat, b: nat)
    ensures And(a, b) == (if a % 2 == 1 && b % 2 == 1 then 1 else 0) + 2 * And(a / 2, b / 2)
  {
  }

  lemma HalfOf(u: nat, r: nat)
    ensures (2 * u + r) / 2 == u + r / 2 && (2 * u + r) % 2 == r % 2
  {
  }

  lemma NoShift(x: nat)
    ensures Shl(x, 0) == x
  {
  }

  lemma NothingAnd()
    ensures And(0, 0) == 0
  {
  }

  lemma ShlOneMore(x: nat, k: nat)
    requires k > 0
    ensures Shl(x, k) == 2 * Shl(x, k - 1)
  {
  }

  /** The bits from `k` up and the bits below are taken separately. */
  lemma {:induction false} AndParts(x: nat, r: nat, y: nat, s: nat, k: nat)
    requires r < Shl(1, k) && s < Shl(1, k)
    ensures And(Shl(x, k) + r, Shl(y, k) + s) == Shl(And(x, y), k) + And(r, s)
    decreases k
  {
    hide And, Shl;
    if k == 0 {
      NoShift(1);
      NoShift(x);
      NoShift(y);
      NoShift(And(x, y));
      NothingAnd();
    } else {
      ShlOneMore(1, k);
      ShlOneMore(x, k);
      ShlOneMore(y, k);
      ShlOneMore(And(x, y), k);
      AndParts(x, r / 2, y, s / 2, k - 1);
      AndOneMore(Shl(x, k - 1), r, Shl(y, k - 1), s, Shl(And(x, y), k - 1));
    }
  }

  /** The XOR in `hw_data_offset` subtracts the base exactly from the addresses that have all
      of its bits set. */
  lemma XorSubtractsIff(p: nat)
    ensures Xor(p, BASE) == p - BASE <==> And(p, BASE) == BASE
  {
    XorIs(p, BASE);
  }

  /** These include every address the allocator computes: it starts inside the memory and adds
      at most 0x1000 before it checks. */
  lemma WindowHasBaseBits(p: nat)
    requires BASE <= p <= BASE + 0x2000
    ensures And(p, BASE) == BASE
  {
    hide And, Shl;
    Shifts(1);
    Shifts(0x501);
    AndParts(0x501, p - BASE, 0x501, 0, 20);
    AndSelf(0x501);
  }

  lemma NoTypeBit(kind: nat)
    requires kind <= 3
    ensures And(32, kind) == 0
  {
    AndHalves(32, kind);
    AndHalves(16, kind / 2);
  }

  lemma KindBits(kind: nat)
    requires kind <= 3
    ensures And(ENABLE, Shl(kind, TYPE_LSB)) == 0
  {
    hide And, Shl;
    NoTypeBit(kind);
    Shifts(1);
    Shifts(32);
    Shifts(0);
    AndParts(32, 0, kind, 0, TYPE_LSB);
  }

  lemma OffsetBits(high: nat, offset: nat)
    requires offset <= 0xffff
    ensures And(0x1_0000 * high, offset) == 0
  {
    hide And, Shl;
    Shifts(1);
    Shifts(high);
    Shifts(0);
    AndParts(high, 0, 0, offset, 16);
  }

  /** The fields of a control register do not overlap, so that OR adds them. */
  lemma FieldsDisjoint(kind: nat, offset: nat)
    requires kind <= 3 && offset <= 0xffff
    ensures Or(Or(ENABLE, Shl(kind, TYPE_LSB)), offset) == ENABLE + kind * TYPE_UNIT + offset
  {
    hide And, Or, Shl;
    Shifts(kind);
    KindBits(kind);
    OrIs(ENABLE, Shl(kind, TYPE_LSB));
    OffsetBits((32 + kind) * 1024, offset);
    OrIs(ENABLE + kind * TYPE_UNIT, offset);
  }

  /** `hw_data_offset` */
  function DataOffset(p: nat): (offset: nat)
    ensures BASE <= p <= BASE + 0x2000 ==> offset == p - BASE
  {
    XorSubtractsIff(p);
    assert BASE <= p <= BASE + 0x2000 ==> And(p, BASE) == BASE by {
      if BASE <= p <= BASE + 0x2000 { WindowHasBaseBits(p); }
    }
    Xor(p, BASE)
  }

  /** Bytes reserved for a packet size: whole 64-byte units, twice that for bulk. */
  function Reserved(mps: nat, kind: nat): nat {
    var size := (mps + 63) / 64 * 64;
    if kind == BULK then size * 2 else size
  }

  /** The control register: enable bit, transfer type from bit 26, buffer offset. */
  function EpCtrl(kind: nat, p: nat): (reg: nat)
    ensures kind <= 3 && BASE <= p <= BASE + 0x2000 ==> reg == ENABLE + kind * TYPE_UNIT + (p - BASE)
  {
    assert kind <= 3 && BASE <= p <= BASE + 0x2000 ==>
      Or(Or(ENABLE, Shl(kind, TYPE_LSB)), DataOffset(p)) == ENABLE + kind * TYPE_UNIT + (p - BASE) by {
      if kind <= 3 && BASE <= p <= BASE + 0x2000 { FieldsDisjoint(kind, DataOffset(p)); }
    }
    Or(Or(ENABLE, Shl(kind, TYPE_LSB)), DataOffset(p))
  }

  // ---------------------------------------------------------------- state and steps

  /** The buffer of an endpoint that has been opened, and its transfer type. */
  datatype Slot = Slot(buffer: nat, size: nat, kind: nat)

  /** An endpoint is named by its number and direction. */
  datatype Key = Key(num: nat, isIn: bool)

  /** One open of an endpoint, as its descriptor gives it: an 11-bit packet size, a 2-bit type. */
  datatype Op = Open(key: Key, mps: nat, kind: nat) | Reset

  predicate ValidOp(op: Op) {
    op.Open? ==> op.key.num < ENDPOINTS && op.mps <= 0x7ff && op.kind <= 3
  }

  /** `next_buffer_ptr`, the live non-control endpoints, the control registers, and whether an
      assertion has failed. */
  datatype Dpram = Dpram(next: nat, live: map<Key, Slot>, ctrl: map<Key, nat>, halted: bool)

  ghost predicate Registers(ctrl: map<Key, nat>) {
    forall k: Key :: k in ctrl <==> 1 <= k.num < 16
  }

  const DISABLED: map<Key, nat> :=
    map k: Key | k in (set n: nat, b: bool | 1 <= n < ENDPOINTS :: Key(n, b)) :: 0

  const INIT := Dpram(FREE, map[], DISABLED, false)

  function Step(d: Dpram, op: Op): Dpram {
    match op
    case Reset => INIT
    case Open(key, mps, kind) =>
      if key.num == 0 then d
      else
        var size := Reserved(mps, kind);
        var next := d.next + size;
        if next % 64 != 0 || DataOffset(next) > SIZE then d.(halted := true)
        else d.(next := next, live := d.live[key := Slot(d.next, size, kind)],
                ctrl := d.ctrl[key := EpCtrl(kind, d.next)])
  }

  function Run(ops: seq<Op>): Dpram {
    if ops == [] then INIT
    else
      var d := Run(ops[..|ops| - 1]);
      if d.halted then d else Step(d, ops[|ops| - 1])
  }

  predicate Apart(a: Slot, b: Slot) {
    a.buffer + a.size <= b.buffer || b.buffer + b.size <= a.buffer
  }

  /** An aligned buffer in the free window below `next`. */
  predicate Placed(s: Slot, next: nat) {
    s.buffer % 64 == 0 && s.size % 64 == 0 && FREE <= s.buffer && s.buffer + s.size <= next
  }

  /** A control register that is enabled and gives back the type and offset of a buffer. */
  predicate Decodes(reg: nat, s: Slot) {
    && reg / ENABLE == 1
    && reg / TYPE_UNIT % 4 == s.kind
    && reg % 0x1_0000 + BASE == s.buffer
  }

  ghost predicate Inv(d: Dpram) {
    && d.next % 64 == 0 && FREE <= d.next <= BASE + SIZE
    && Registers(d.ctrl)
    && (forall k | k in d.live :: k in d.ctrl && Placed(d.live[k], d.next) && Decodes(d.ctrl[k], d.live[k]))
    && (forall k | k in d.ctrl && k !in d.live :: d.ctrl[k] == 0)
    && (forall k, l | k in d.live && l in d.live && k != l :: Apart(d.live[k], d.live[l]))
  }

  /** What is reserved is the packet size rounded up to 64, doubled for bulk, and stays within
      the range for which the XOR subtracts. */
  lemma ReservedFits(mps: nat, kind: nat)
    requires mps <= 0x7ff
    ensures var size := Reserved(mps, kind);
      && size % 64 == 0 && size <= 0x1000
      && (kind != BULK ==> mps <= size < mps + 64)
      && (kind == BULK ==> 2 * mps <= size < 2 * mps + 128)
  {
  }

  lemma CtrlDecodes(p: nat, size: nat, kind: nat)
    requires BASE <= p <= BASE + SIZE && kind <= 3
    ensures Decodes(EpCtrl(kind, p), Slot(p, size, kind))
  {
    hide EpCtrl, DataOffset;
    var offset := p - BASE;
    assert EpCtrl(kind, p) == ENABLE + kind * TYPE_UNIT + offset;
    FieldsOf(kind, offset);
  }

  lemma FieldsOf(kind: nat, offset: nat)
    requires kind <= 3 && offset <= 0x1000
    ensures var reg := ENABLE + kind * TYPE_UNIT + offset;
      reg / ENABLE == 1 && reg / TYPE_UNIT % 4 == kind && reg % 0x1_0000 == offset
  {
    assert kind == 0 || kind == 1 || kind == 2 || kind == 3;
  }

  lemma StepKeeps(d: Dpram, op: Op)
    requires Inv(d) && ValidOp(op)
    ensures Inv(Step(d, op))
  {
    hide Reserved, EpCtrl, Decodes, DataOffset;
    if op.Open? {
      ReservedFits(op.mps, op.kind);
      CtrlDecodes(d.next, Reserved(op.mps, op.kind), op.kind);
    }
  }

  /** Any run of opens and resets that passes its assertions. */
  lemma {:induction false} RunKeeps(ops: seq<Op>)
    requires forall op | op in ops :: ValidOp(op)
    ensures Inv(Run(ops))
    decreases |ops|
  {
    if ops != [] {
      RunKeeps(ops[..|ops| - 1]);
      assert ops[|ops| - 1] in ops;
      StepKeeps(Run(ops[..|ops| - 1]), ops[|ops| - 1]);
    }
  }

  /** Live non-control endpoints hold disjoint aligned buffers inside the memory, and the
      control register of each, and of no other endpoint, is enabled and decodes back. */
  lemma BuffersDisjoint(ops: seq<Op>, k: Key, l: Key)
    requires forall op | op in ops :: ValidOp(op)
    requires k in Run(ops).live && 1 <= l.num < 16 && k != l
    ensures var d := Run(ops);
      && Placed(d.live[k], 0x5010_1000)
      && k in d.ctrl && Decodes(d.ctrl[k], d.live[k])
      && (if l in d.live then Apart(d.live[k], d.live[l]) else l in d.ctrl && d.ctrl[l] == 0)
  {
    RunKeeps(ops);
  }

  /** Sizes reserved since the last reset. */
  function Demand(ops: seq<Op>): nat {
    if ops == [] then 0
    else
      var op := ops[|ops| - 1];
      if op.Reset? then 0
      else Demand(ops[..|ops| - 1]) + (if op.key.num == 0 then 0 else Reserved(op.mps, op.kind))
  }

  /** What the first `n` operations ask for does not fit after the fixed buffers. */
  predicate TooMuch(ops: seq<Op>, n: nat) {
    n <= |ops| && Demand(ops[..n]) > 0x1000 - 0x180
  }

  ghost predicate EverTooMuch(ops: seq<Op>) {
    exists n: nat :: TooMuch(ops, n)
  }

  /** An assertion fails exactly when at some point the opens since the last reset have asked
      for more than the memory holds. */
  lemma {:induction false} HaltsIff(ops: seq<Op>)
    requires forall op | op in ops :: ValidOp(op)
    ensures Run(ops).halted <==> EverTooMuch(ops)
    ensures !Run(ops).halted ==> Run(ops).next == FREE + Demand(ops)
    decreases |ops|
  {
    hide EpCtrl, DataOffset, Registers, Reserved;
    if ops == [] {
      assert forall n: nat :: n <= |ops| ==> ops[..n] == [];
    } else {
      var last := |ops| - 1;
      var before := ops[..last];
      HaltsIff(before);
      RunKeeps(before);
      assert ops[last] in ops;
      if ops[last].Open? { ReservedFits(ops[last].mps, ops[last].kind); }
      SomePrefix(ops);
    }
  }

  lemma SomePrefix(ops: seq<Op>)
    requires ops != []
    ensures EverTooMuch(ops) <==> EverTooMuch(ops[..|ops| - 1]) || Demand(ops) > 0x1000 - 0x180
  {
    hide Demand;
    var before := ops[..|ops| - 1];
    assert ops[..|ops|] == ops;
    assert forall n: nat | n <= |ops| - 1 :: before[..n] == ops[..n];
    if Demand(ops) > 0x1000 - 0x180 {
      assert TooMuch(ops, |ops|);
    }
    forall n: nat | TooMuch(before, n) ensures TooMuch(ops, n) {
    }
    forall n: nat | TooMuch(ops, n) ensures TooMuch(before, n) || Demand(ops) > 0x1000 - 0x180 {
    }
  }

  // ---------------------------------------------------------------- the code

  class DeviceMemory {
    var nextBufferPtr: nat
    var live: map<Key, Slot>
    var epCtrl: map<Key, nat>
    var halted: bool

    function View(): Dpram
      reads this
    {
      Dpram(nextBufferPtr, live, epCtrl, halted)
    }

    constructor ()
      ensures View() == INIT
    {
      nextBufferPtr, live, epCtrl, halted := FREE, map[], DISABLED, false;
    }

    method ResetNonControlEndpoints()
      requires Registers(epCtrl)
      modifies this
      ensures View() == INIT.(halted := old(halted))
    {
      var i := 0;
      while i < ENDPOINTS - 1
        invariant 0 <= i <= ENDPOINTS - 1 && Registers(epCtrl) && halted == old(halted)
        invariant forall k | k in epCtrl && k.num <= i :: epCtrl[k] == 0
      {
        epCtrl := epCtrl[Key(i + 1, true) := 0];
        epCtrl := epCtrl[Key(i + 1, false) := 0];
        i := i + 1;
      }
      assert epCtrl == DISABLED;
      live := map[];
      nextBufferPtr := FREE;
    }

    /** `hw_endpoint_init` and `_hw_endpoint_alloc`: buffer and control register of an endpoint.
        The control endpoint has a fixed buffer and no control register. */
    method HwEndpointInit(key: Key, mps: nat, kind: nat)
      modifies this
      ensures View() == Step(old(View()), Open(key, mps, kind))
    {
      hide EpCtrl, DataOffset;
      if key.num == 0 { return; }
      var size := (mps + 63) / 64 * 64;
      if kind == BULK {
        size := size * 2;
      }
      var buffer := nextBufferPtr;
      if (nextBufferPtr + size) % 64 != 0 || DataOffset(nextBufferPtr + size) > SIZE {
        halted := true;
        return;
      }
      nextBufferPtr := nextBufferPtr + size;
      live := live[key := Slot(buffer, size, kind)];
      epCtrl := epCtrl[key := EpCtrl(kind, buffer)];
    }
  }
}
