/** The walk over a configuration response that opens and registers its endpoints
    (device_event_handlers.c). */
module DescriptorWalk {
  import opened Common
  import DpramAllocator

  type Dpram = DpramAllocator.Dpram

  const INTERFACE: byte := 0x04
  const ENDPOINT: byte := 0x05
  const HID: byte := 0x03
  const MASS_STORAGE: byte := 0x08

  /** An endpoint the walk registered: its descriptor, and where its interface's starts. */
  datatype Registered = Registered(desc: seq<byte>, itf: nat)

  /** How the loop ends: at the end of the response, at a failed assertion or a refusing driver,
      never, or beyond the end of the buffer. */
  datatype End = Finished | Refused | Forever | Overrun

  /** What the walk has registered, the device's endpoint memory after it, and how it ended. */
  datatype Walked = Walked(registered: seq<Registered>, mem: Dpram, end: End)

  /** `bInterfaceClass` of the interface descriptor at `p`. */
  function ClassAt(arr: seq<byte>, p: nat): byte {
    if p + 5 < |arr| then arr[p + 5] else 0
  }

  /** `register_driver_for_edpt` accepts the interface. */
  predicate Drivable(arr: seq<byte>, itf: Option<nat>) {
    itf.Some? && ClassAt(arr, itf.value) in {HID, MASS_STORAGE}
  }

  /** `dcd_edpt_open_new`: the fields of the endpoint descriptor at `p`, whatever its length. */
  function OpenAt(arr: seq<byte>, p: nat): (op: DpramAllocator.Op)
    requires p + 6 <= |arr|
    ensures op.Open? && DpramAllocator.ValidOp(op)
  {
    DpramAllocator.Open(DpramAllocator.Key(Number(arr[p + 2]), arr[p + 2] >= 0x80),
                        Word(arr[p + 4], arr[p + 5]) % 0x800, arr[p + 3] % 4)
  }

  /** The descriptor at `p` lies in the buffer. */
  predicate Within(arr: seq<byte>, p: nat) {
    p + 6 <= |arr| && p + arr[p] <= |arr|
  }

  /** A walk that goes on as `rest` after it has registered `first`. */
  function After(first: seq<Registered>, rest: Walked): Walked {
    rest.(registered := first + rest.registered)
  }

  /** Specification of the loop from `pos`, with the last interface seen. */
  function WalkFrom(arr: seq<byte>, len: nat, pos: nat, itf: Option<nat>, mem: Dpram): Walked
    decreases len - pos
  {
    if pos >= len then Walked([], mem, Finished)
    else if pos + 1 >= |arr| then Walked([], mem, Overrun)
    else
      var kind, next := arr[pos + 1], pos + arr[pos];
      var itf' := if kind == INTERFACE then Some(pos) else itf;
      if kind != ENDPOINT then
        if next == pos then Walked([], mem, Forever) else WalkFrom(arr, len, next, itf', mem)
      else if !Within(arr, pos) then Walked([], mem, Overrun)
      else
        var mem' := DpramAllocator.Step(mem, OpenAt(arr, pos));
        if mem'.halted || !Drivable(arr, itf') then Walked([], mem', Refused)
        else if next == pos then Walked([], mem', Forever)
        else After([Registered(arr[pos..next], itf'.value)], WalkFrom(arr, len, next, itf', mem'))
  }

  /** The message that opens an endpoint on the slave. */
  function OpenMessage(r: Registered): Message {
    Message(EDPT_OPEN + DEBUG_PRINT_AS_HEX, r.desc)
  }

  function OpenMessages(rs: seq<Registered>): (ms: seq<Message>)
    ensures |ms| == |rs| && forall i :: 0 <= i < |rs| ==> ms[i] == OpenMessage(rs[i])
  {
    seq(|rs|, i requires 0 <= i < |rs| => OpenMessage(rs[i]))
  }

  lemma AfterAll(first: seq<Registered>, r: Registered, rest: Walked)
    ensures After(first, After([r], rest)) == After(first + [r], rest)
    ensures OpenMessages(first + [r]) == OpenMessages(first) + [OpenMessage(r)]
  {
    assert first + ([r] + rest.registered) == (first + [r]) + rest.registered;
  }

  lemma AfterNone(first: seq<Registered>, mem: Dpram, end: End)
    ensures After(first, Walked([], mem, end)) == Walked(first, mem, end)
  {
    assert first + [] == first;
  }

  lemma NothingYet(rest: Walked)
    ensures After([], rest) == rest && OpenMessages([]) == []
  {
  }

  /** One message is queued for each endpoint registered, in order.  Where the loop of the code
      would not come to an end the method says so. */
  method Walk(arr: seq<byte>, len: nat, dpram: DpramAllocator.DeviceMemory)
    returns (registered: seq<Registered>, tx: seq<Message>, end: End)
    modifies dpram
    ensures Walked(registered, dpram.View(), end) == WalkFrom(arr, len, 0, None, old(dpram.View()))
    ensures tx == OpenMessages(registered)
  {
    hide After, OpenMessage, OpenMessages, DpramAllocator.Step, OpenAt, ClassAt;
    var pos := 0;
    var itf: Option<nat> := None;
    registered, tx, end := [], [], Finished;
    ghost var spec := WalkFrom(arr, len, 0, None, dpram.View());
    NothingYet(spec);
    while pos < len
      invariant tx == OpenMessages(registered) && end == Finished
      invariant After(registered, WalkFrom(arr, len, pos, itf, dpram.View())) == spec
      decreases len - pos
    {
      if pos + 1 >= |arr| {
        AfterNone(registered, dpram.View(), Overrun);
        end := Overrun;
        return;
      }
      if arr[pos + 1] == INTERFACE {
        itf := Some(pos);
      }
      if arr[pos + 1] == ENDPOINT {
        if !Within(arr, pos) {
          AfterNone(registered, dpram.View(), Overrun);
          end := Overrun;
          return;
        }
        var op := OpenAt(arr, pos);
        ghost var mem := dpram.View();
        dpram.HwEndpointInit(op.key, op.mps, op.kind);
        if dpram.halted || !Drivable(arr, itf) {
          AfterNone(registered, dpram.View(), Refused);
          end := Refused;
          return;
        }
        if arr[pos] > 0 {
          var r := Registered(arr[pos..pos + arr[pos]], itf.value);
          AfterAll(registered, r, WalkFrom(arr, len, pos + arr[pos], itf, dpram.View()));
          registered := registered + [r];
          tx := tx + [OpenMessage(r)];
        }
      }
      if arr[pos] == 0 {
        AfterNone(registered, dpram.View(), Forever);
        end := Forever;
        return;
      }
      pos := pos + arr[pos];
    }
    AfterNone(registered, dpram.View(), Finished);
  }

  /** The walk keeps what the allocator keeps. */
  lemma {:induction false} WalkKeepsMemory(arr: seq<byte>, len: nat, pos: nat, itf: Option<nat>, mem: Dpram)
    requires DpramAllocator.Inv(mem)
    ensures DpramAllocator.Inv(WalkFrom(arr, len, pos, itf, mem).mem)
    decreases len - pos
  {
    hide DpramAllocator.Inv, DpramAllocator.Step, OpenAt, Drivable;
    if pos < len && pos + 1 < |arr| && arr[pos] > 0 {
      var itf' := if arr[pos + 1] == INTERFACE then Some(pos) else itf;
      if arr[pos + 1] != ENDPOINT {
        WalkKeepsMemory(arr, len, pos + arr[pos], itf', mem);
      } else if Within(arr, pos) {
        DpramAllocator.StepKeeps(mem, OpenAt(arr, pos));
        WalkKeepsMemory(arr, len, pos + arr[pos], itf', DpramAllocator.Step(mem, OpenAt(arr, pos)));
      }
    } else if pos < len && pos + 1 < |arr| && Within(arr, pos) {
      DpramAllocator.StepKeeps(mem, OpenAt(arr, pos));
    }
  }

  // ---------------------------------------------------------------- termination

  /** Where the loop is after `n` iterations; it stays once it is past `len`. */
  function PosAfter(arr: seq<byte>, len: nat, pos: nat, n: nat): nat
    requires len <= |arr|
    decreases n
  {
    if n == 0 || pos >= len then pos else PosAfter(arr, len, pos + arr[pos], n - 1)
  }

  /** No descriptor on the path from `pos` has length zero. */
  predicate MovesOn(arr: seq<byte>, len: nat, pos: nat)
    requires len <= |arr|
    decreases len - pos
  {
    pos >= len || (arr[pos] > 0 && MovesOn(arr, len, pos + arr[pos]))
  }

  /** The loop ends exactly when no descriptor on its path has length zero. */
  lemma WalkEndsIff(arr: seq<byte>, len: nat)
    requires len <= |arr|
    ensures (exists n :: PosAfter(arr, len, 0, n) >= len) <==> MovesOn(arr, len, 0)
  {
    if MovesOn(arr, len, 0) {
      var n := Reaches(arr, len, 0);
    } else {
      forall n ensures PosAfter(arr, len, 0, n) < len {
        Stuck(arr, len, 0, n);
      }
    }
  }

  lemma Reaches(arr: seq<byte>, len: nat, pos: nat) returns (n: nat)
    requires len <= |arr| && MovesOn(arr, len, pos)
    ensures PosAfter(arr, len, pos, n) >= len
    decreases len - pos
  {
    if pos >= len {
      n := 0;
    } else {
      n := Reaches(arr, len, pos + arr[pos]);
      n := n + 1;
    }
  }

  lemma Stuck(arr: seq<byte>, len: nat, pos: nat, n: nat)
    requires len <= |arr| && !MovesOn(arr, len, pos)
    ensures PosAfter(arr, len, pos, n) < len
    decreases n
  {
    if n > 0 {
      if arr[pos] > 0 {
        Stuck(arr, len, pos + arr[pos], n - 1);
      } else {
        StaysPut(arr, len, pos, n);
      }
    }
  }

  lemma StaysPut(arr: seq<byte>, len: nat, pos: nat, n: nat)
    requires len <= |arr| && pos < len && arr[pos] == 0
    ensures PosAfter(arr, len, pos, n) == pos
    decreases n
  {
  }

  /** ... so a walk that nothing stops before finishes exactly in that case. */
  lemma {:induction false} FinishesIff(arr: seq<byte>, len: nat, pos: nat, itf: Option<nat>, mem: Dpram)
    requires len <= |arr|
    requires WalkFrom(arr, len, pos, itf, mem).end in {Finished, Forever}
    ensures WalkFrom(arr, len, pos, itf, mem).end == Finished <==> MovesOn(arr, len, pos)
    decreases len - pos
  {
    hide DpramAllocator.Step, OpenAt, Drivable;
    if pos < len && pos + 1 < |arr| && arr[pos] > 0 {
      var itf' := if arr[pos + 1] == INTERFACE then Some(pos) else itf;
      var mem' :=
        if arr[pos + 1] == ENDPOINT && Within(arr, pos) then DpramAllocator.Step(mem, OpenAt(arr, pos)) else mem;
      FinishesIff(arr, len, pos + arr[pos], itf', mem');
    }
  }

  // ---------------------------------------------------------------- lists of descriptors

  /** Whole descriptors, each of which says its own length. */
  predicate WellFormed(ds: seq<seq<byte>>) {
    forall d | d in ds :: |d| >= 2 && d[0] == |d|
  }

  /** Where descriptor `i` starts. */
  function Offset(ds: seq<seq<byte>>, i: nat): nat
    requires i <= |ds|
  {
    |Concat(ds[..i])|
  }

  /** The nearest interface descriptor before descriptor `i`. */
  function Nearest(ds: seq<seq<byte>>, i: nat): (j: Option<nat>)
    requires i <= |ds| && WellFormed(ds)
    ensures j.Some? ==> j.value < i && Kind(ds, j.value) == 4
    ensures forall k :: 0 <= k < i && (j.None? || k > j.value) ==> Kind(ds, k) != 4
  {
    if i == 0 then None else if Kind(ds, i - 1) == INTERFACE then Some(i - 1) else Nearest(ds, i - 1)
  }

  function Kind(ds: seq<seq<byte>>, i: nat): byte
    requires i < |ds| && WellFormed(ds)
  {
    assert ds[i] in ds;
    ds[i][1]
  }

  /** The indices from `i` of the endpoint descriptors. */
  function Endpoints(ds: seq<seq<byte>>, i: nat): (es: seq<nat>)
    requires i <= |ds| && WellFormed(ds)
    ensures forall e: nat :: e in es <==> i <= e < |ds| && Kind(ds, e) == 5
    decreases |ds| - i
  {
    if i == |ds| then []
    else if Kind(ds, i) == ENDPOINT then [i] + Endpoints(ds, i + 1)
    else Endpoints(ds, i + 1)
  }

  lemma EndpointsAscend(ds: seq<seq<byte>>, i: nat, a: nat, b: nat)
    requires i <= |ds| && WellFormed(ds) && a < b < |Endpoints(ds, i)|
    ensures Endpoints(ds, i)[a] < Endpoints(ds, i)[b]
    decreases |ds| - i
  {
    var rest := Endpoints(ds, i + 1);
    if Kind(ds, i) != ENDPOINT {
      EndpointsAscend(ds, i + 1, a, b);
    } else if a == 0 {
      assert rest[b - 1] in rest;
    } else {
      EndpointsAscend(ds, i + 1, a - 1, b - 1);
    }
  }

  function Place(ds: seq<seq<byte>>, j: Option<nat>): Option<nat>
    requires j.Some? ==> j.value <= |ds|
  {
    if j.Some? then Some(Offset(ds, j.value)) else None
  }

  /** Every endpoint descriptor lies in the buffer and has a driver for its nearest interface. */
  predicate DrivableIn(arr: seq<byte>, ds: seq<seq<byte>>)
    requires WellFormed(ds)
  {
    forall e :: 0 <= e < |ds| && Kind(ds, e) == ENDPOINT ==>
      Offset(ds, e) + 6 <= |arr| && Drivable(arr, Place(ds, Nearest(ds, e)))
  }

  /** The device's memory after the endpoints from descriptor `i` on have been opened. */
  function Opened(arr: seq<byte>, ds: seq<seq<byte>>, i: nat, mem: Dpram): Dpram
    requires i <= |ds| && WellFormed(ds) && DrivableIn(arr, ds)
    decreases |ds| - i
  {
    if i == |ds| then mem
    else if Kind(ds, i) != ENDPOINT then Opened(arr, ds, i + 1, mem)
    else Opened(arr, ds, i + 1, DpramAllocator.Step(mem, OpenAt(arr, Offset(ds, i))))
  }

  lemma {:induction false} StaysHalted(arr: seq<byte>, ds: seq<seq<byte>>, i: nat, mem: Dpram)
    requires i <= |ds| && WellFormed(ds) && DrivableIn(arr, ds) && mem.halted
    ensures Opened(arr, ds, i, mem).halted
    decreases |ds| - i
  {
    if i < |ds| {
      hide DrivableIn, WellFormed, Offset, OpenAt;
      if Kind(ds, i) != ENDPOINT {
        StaysHalted(arr, ds, i + 1, mem);
      } else {
        StaysHalted(arr, ds, i + 1, DpramAllocator.Step(mem, OpenAt(arr, Offset(ds, i))));
      }
    }
  }

  /** Endpoint `e` as it ought to be registered. */
  function Expected(ds: seq<seq<byte>>, e: nat): Registered
    requires WellFormed(ds) && e < |ds| && Nearest(ds, e).Some?
  {
    Registered(ds[e], Offset(ds, Nearest(ds, e).value))
  }

  lemma ConcatCut(ds: seq<seq<byte>>, i: nat)
    requires i < |ds|
    ensures Concat(ds) == Concat(ds[..i]) + ds[i] + Concat(ds[i + 1..])
    ensures Offset(ds, i + 1) == Offset(ds, i) + |ds[i]|
  {
    assert ds[..i + 1] == ds[..i] + [ds[i]];
    ConcatSnoc(ds[..i], ds[i]);
    ConcatCutAt(ds, i);
  }

  lemma ConcatCutAt(ds: seq<seq<byte>>, i: nat)
    requires i < |ds|
    ensures Concat(ds) == Concat(ds[..i]) + (ds[i] + Concat(ds[i + 1..]))
  {
    if i > 0 {
      var tail := ds[1..];
      ConcatCutAt(tail, i - 1);
      assert tail[..i - 1] == ds[..i][1..] && tail[i - 1] == ds[i] && tail[i..] == ds[i + 1..];
      assert Concat(ds[..i]) == ds[0] + Concat(tail[..i - 1]);
    }
  }

  lemma DescriptorAt(arr: seq<byte>, len: nat, ds: seq<seq<byte>>, i: nat)
    requires WellFormed(ds) && i < |ds| && len <= |arr| && arr[..len] == Concat(ds)
    ensures var p := Offset(ds, i);
      && p + |ds[i]| == Offset(ds, i + 1) <= len && |ds[i]| >= 2
      && arr[p] == |ds[i]| && arr[p + 1] == Kind(ds, i) && arr[p..p + arr[p]] == ds[i]
  {
    hide Concat;
    ConcatCut(ds, i);
    var p := Offset(ds, i);
    assert ds[i] in ds;
    assert arr[..len][p..p + |ds[i]|] == ds[i];
    assert arr[p] == ds[i][0] && arr[p + 1] == ds[i][1];
  }

  lemma OtherStep(arr: seq<byte>, len: nat, pos: nat, itf: Option<nat>, mem: Dpram)
    requires pos < len && pos + 1 < |arr| && arr[pos + 1] != ENDPOINT && arr[pos] > 0
    ensures WalkFrom(arr, len, pos, itf, mem) ==
      WalkFrom(arr, len, pos + arr[pos], if arr[pos + 1] == INTERFACE then Some(pos) else itf, mem)
  {
    hide DpramAllocator.Step, OpenAt, Drivable, After;
  }

  lemma EndpointStep(arr: seq<byte>, len: nat, pos: nat, itf: Option<nat>, mem: Dpram)
    requires pos < len && pos + 1 < |arr| && arr[pos + 1] == ENDPOINT && arr[pos] > 0
    requires Within(arr, pos) && Drivable(arr, itf)
    ensures var mem' := DpramAllocator.Step(mem, OpenAt(arr, pos));
      WalkFrom(arr, len, pos, itf, mem) ==
        if mem'.halted then Walked([], mem', Refused)
        else After([Registered(arr[pos..pos + arr[pos]], itf.value)], WalkFrom(arr, len, pos + arr[pos], itf, mem'))
  {
    hide DpramAllocator.Step, OpenAt, After;
  }

  /** What one iteration at descriptor `i` comes to: it is no endpoint, or it does not fit the
      memory, or it is registered as it ought to be. */
  predicate Iteration(arr: seq<byte>, len: nat, ds: seq<seq<byte>>, i: nat, mem: Dpram)
    requires WellFormed(ds) && i < |ds| && (Kind(ds, i) == ENDPOINT ==> Offset(ds, i) + 6 <= |arr|)
  {
    var itf, itf' := Place(ds, Nearest(ds, i)), Place(ds, Nearest(ds, i + 1));
    var w := WalkFrom(arr, len, Offset(ds, i), itf, mem);
    if Kind(ds, i) != ENDPOINT then w == WalkFrom(arr, len, Offset(ds, i + 1), itf', mem)
    else
      var mem' := DpramAllocator.Step(mem, OpenAt(arr, Offset(ds, i)));
      if mem'.halted then w == Walked([], mem', Refused)
      else Nearest(ds, i).Some? && w == After([Expected(ds, i)], WalkFrom(arr, len, Offset(ds, i + 1), itf', mem'))
  }

  lemma WalksOne(arr: seq<byte>, len: nat, ds: seq<seq<byte>>, i: nat, mem: Dpram)
    requires WellFormed(ds) && i < |ds| && len <= |arr| && arr[..len] == Concat(ds) && DrivableIn(arr, ds)
    ensures Kind(ds, i) == ENDPOINT ==> Offset(ds, i) + 6 <= |arr|
    ensures Iteration(arr, len, ds, i, mem)
  {
    hide Offset, DpramAllocator.Step, OpenAt, Drivable, WalkFrom, After, Concat, WellFormed, Iteration, Nearest, Place;
    DescriptorAt(arr, len, ds, i);
    if Kind(ds, i) == ENDPOINT {
      assert Drivable(arr, Place(ds, Nearest(ds, i)));
      OneEndpoint(arr, len, ds, i, mem);
    } else {
      OneOther(arr, len, ds, i, mem);
    }
  }

  lemma OneEndpoint(arr: seq<byte>, len: nat, ds: seq<seq<byte>>, i: nat, mem: Dpram)
    requires WellFormed(ds) && i < |ds| && len <= |arr| && Kind(ds, i) == ENDPOINT
    requires var p := Offset(ds, i);
      && p + |ds[i]| == Offset(ds, i + 1) <= len && |ds[i]| >= 2 && p + 6 <= |arr|
      && arr[p] == |ds[i]| && arr[p + 1] == Kind(ds, i) && arr[p..p + arr[p]] == ds[i]
      && Drivable(arr, Place(ds, Nearest(ds, i)))
    ensures Iteration(arr, len, ds, i, mem)
  {
    hide Offset, DpramAllocator.Step, OpenAt, Drivable, WalkFrom, After, WellFormed;
    DrivablePlace(arr, ds, i);
    EndpointStep(arr, len, Offset(ds, i), Place(ds, Nearest(ds, i)), mem);
  }

  lemma OneOther(arr: seq<byte>, len: nat, ds: seq<seq<byte>>, i: nat, mem: Dpram)
    requires WellFormed(ds) && i < |ds| && len <= |arr| && Kind(ds, i) != ENDPOINT
    requires var p := Offset(ds, i);
      && p + |ds[i]| == Offset(ds, i + 1) <= len && |ds[i]| >= 2
      && arr[p] == |ds[i]| && arr[p + 1] == Kind(ds, i)
    ensures Iteration(arr, len, ds, i, mem)
  {
    hide Offset, WalkFrom, After, WellFormed;
    OtherStep(arr, len, Offset(ds, i), Place(ds, Nearest(ds, i)), mem);
  }

  lemma DrivablePlace(arr: seq<byte>, ds: seq<seq<byte>>, i: nat)
    requires WellFormed(ds) && i <= |ds| && Drivable(arr, Place(ds, Nearest(ds, i)))
    ensures Nearest(ds, i).Some?
  {
  }

  /** The walk from descriptor `i` registers the endpoints from there, `k`th by `k`th. */
  predicate Walks(w: Walked, ds: seq<seq<byte>>, i: nat, k: nat)
    requires WellFormed(ds) && i <= |ds|
  {
    var es := Endpoints(ds, i);
    && w.end == Finished && |w.registered| == |es|
    && (k < |es| ==> es[k] < |ds| && Nearest(ds, es[k]).Some? && w.registered[k] == Expected(ds, es[k]))
  }

  /** ... and what the walk from there comes to. */
  predicate WalkedFrom(arr: seq<byte>, len: nat, ds: seq<seq<byte>>, i: nat, mem: Dpram, k: nat)
    requires WellFormed(ds) && i <= |ds| && DrivableIn(arr, ds)
  {
    var w := WalkFrom(arr, len, Offset(ds, i), Place(ds, Nearest(ds, i)), mem);
    if Opened(arr, ds, i, mem).halted then w.end == Refused
    else Walks(w, ds, i, k) && w.mem == Opened(arr, ds, i, mem)
  }

  lemma {:induction false} WalkList(arr: seq<byte>, len: nat, ds: seq<seq<byte>>, i: nat, mem: Dpram, k: nat)
    requires WellFormed(ds) && i <= |ds| && len <= |arr| && arr[..len] == Concat(ds) && DrivableIn(arr, ds)
    requires !mem.halted
    ensures WalkedFrom(arr, len, ds, i, mem, k)
    decreases |ds| - i
  {
    if i == |ds| {
      NoneLeft(arr, len, ds, mem, k);
    } else {
      hide DrivableIn, WellFormed, Offset, DpramAllocator.Step, Concat, WalkedFrom, Iteration;
      WalksOne(arr, len, ds, i, mem);
      if Kind(ds, i) != ENDPOINT {
        WalkList(arr, len, ds, i + 1, mem, k);
        PassesOther(arr, len, ds, i, mem, k);
      } else {
        var mem' := DpramAllocator.Step(mem, OpenAt(arr, Offset(ds, i)));
        if !mem'.halted {
          WalkList(arr, len, ds, i + 1, mem', if k > 0 then k - 1 else k);
        }
        PassesEndpoint(arr, len, ds, i, mem, k);
      }
    }
  }

  lemma NoneLeft(arr: seq<byte>, len: nat, ds: seq<seq<byte>>, mem: Dpram, k: nat)
    requires WellFormed(ds) && len <= |arr| && arr[..len] == Concat(ds) && DrivableIn(arr, ds) && !mem.halted
    ensures WalkedFrom(arr, len, ds, |ds|, mem, k)
  {
    assert ds[..|ds|] == ds;
    hide DrivableIn, WellFormed, Nearest, Place, Concat;
  }

  lemma PassesOther(arr: seq<byte>, len: nat, ds: seq<seq<byte>>, i: nat, mem: Dpram, k: nat)
    requires WellFormed(ds) && i < |ds| && DrivableIn(arr, ds) && Kind(ds, i) != ENDPOINT
    requires Iteration(arr, len, ds, i, mem) && WalkedFrom(arr, len, ds, i + 1, mem, k)
    ensures WalkedFrom(arr, len, ds, i, mem, k)
  {
    OneOpened(arr, ds, i, mem);
    hide DrivableIn, WellFormed, Nearest, Place, Offset, WalkFrom, Opened, Walks, DpramAllocator.Step;
    SkipsOne(ds, i, WalkFrom(arr, len, Offset(ds, i + 1), Place(ds, Nearest(ds, i + 1)), mem), k);
  }

  lemma PassesEndpoint(arr: seq<byte>, len: nat, ds: seq<seq<byte>>, i: nat, mem: Dpram, k: nat)
    requires WellFormed(ds) && i < |ds| && DrivableIn(arr, ds) && Kind(ds, i) == ENDPOINT
    requires Offset(ds, i) + 6 <= |arr| && Iteration(arr, len, ds, i, mem)
    requires var mem' := DpramAllocator.Step(mem, OpenAt(arr, Offset(ds, i)));
      !mem'.halted ==> WalkedFrom(arr, len, ds, i + 1, mem', if k > 0 then k - 1 else k)
    ensures WalkedFrom(arr, len, ds, i, mem, k)
  {
    OneOpened(arr, ds, i, mem);
    hide DrivableIn, WellFormed, Nearest, Place, Offset, WalkFrom, Opened, Walks, DpramAllocator.Step,
      OpenAt, Expected;
    var mem' := DpramAllocator.Step(mem, OpenAt(arr, Offset(ds, i)));
    if mem'.halted {
      StaysHalted(arr, ds, i + 1, mem');
    } else if !Opened(arr, ds, i + 1, mem').halted {
      AddsOne(ds, i, WalkFrom(arr, len, Offset(ds, i + 1), Place(ds, Nearest(ds, i + 1)), mem'), k);
    }
  }

  lemma OneOpened(arr: seq<byte>, ds: seq<seq<byte>>, i: nat, mem: Dpram)
    requires i < |ds| && WellFormed(ds) && DrivableIn(arr, ds)
    ensures Offset(ds, i) + 6 <= |arr| || Kind(ds, i) != ENDPOINT
    ensures Opened(arr, ds, i, mem) ==
      if Kind(ds, i) != ENDPOINT then Opened(arr, ds, i + 1, mem)
      else Opened(arr, ds, i + 1, DpramAllocator.Step(mem, OpenAt(arr, Offset(ds, i))))
  {
    hide Offset, OpenAt, DpramAllocator.Step, Drivable;
  }

  lemma SkipsOne(ds: seq<seq<byte>>, i: nat, rest: Walked, k: nat)
    requires WellFormed(ds) && i < |ds| && Kind(ds, i) != ENDPOINT
    ensures Walks(rest, ds, i, k) == Walks(rest, ds, i + 1, k)
  {
    assert Endpoints(ds, i) == Endpoints(ds, i + 1);
  }

  lemma AddsOne(ds: seq<seq<byte>>, i: nat, rest: Walked, k: nat)
    requires WellFormed(ds) && i < |ds| && Kind(ds, i) == ENDPOINT && Nearest(ds, i).Some?
    requires Walks(rest, ds, i + 1, if k > 0 then k - 1 else k)
    ensures Walks(After([Expected(ds, i)], rest), ds, i, k)
  {
    assert Endpoints(ds, i) == [i] + Endpoints(ds, i + 1);
    hide Expected, WellFormed;
  }

  /** For every list of whole descriptors whose endpoints all have a driver: the walk opens
      exactly the endpoint descriptors, in order and verbatim, each registered with the nearest
      interface before it, if and only if the device has memory for all of them; bytes after
      the response make no difference. */
  lemma WalksDescriptors(arr: seq<byte>, len: nat, ds: seq<seq<byte>>, mem: Dpram, k: nat)
    requires WellFormed(ds) && len <= |arr| && arr[..len] == Concat(ds) && DrivableIn(arr, ds) && !mem.halted
    ensures var w := WalkFrom(arr, len, 0, None, mem);
      var es := Endpoints(ds, 0);
      && (w.end == Finished <==> !Opened(arr, ds, 0, mem).halted)
      && (w.end == Finished ==>
            && w.mem == Opened(arr, ds, 0, mem) && |OpenMessages(w.registered)| == |es|
            && (k < |es| ==>
                  && es[k] < |ds| && Nearest(ds, es[k]).Some?
                  && w.registered[k] == Expected(ds, es[k])
                  && OpenMessages(w.registered)[k] == Message(EDPT_OPEN + DEBUG_PRINT_AS_HEX, ds[es[k]])))
  {
    assert Offset(ds, 0) == 0;
    hide Opened, WalkFrom, DrivableIn, Concat, WellFormed, Offset;
    WalkList(arr, len, ds, 0, mem, k);
  }

  // ---------------------------------------------------------------- on the descriptors alone

  /** Every endpoint descriptor is whole as far as it is read, and so is the nearest interface
      descriptor before it, which is of a class that has a driver. */
  predicate AllDrivable(ds: seq<seq<byte>>)
    requires WellFormed(ds)
  {
    forall e :: 0 <= e < |ds| && Kind(ds, e) == ENDPOINT ==> |ds[e]| >= 6 && Driven(ds, Nearest(ds, e))
  }

  predicate Driven(ds: seq<seq<byte>>, itf: Option<nat>)
    requires itf.Some? ==> itf.value < |ds|
  {
    itf.Some? && |ds[itf.value]| >= 6 && (ds[itf.value][5] == 3 || ds[itf.value][5] == 8)   // HID, mass storage
  }

  function OpenOf(desc: seq<byte>): (op: DpramAllocator.Op)
    requires |desc| >= 6
    ensures op.Open? && DpramAllocator.ValidOp(op)
  {
    OpenAt(desc, 0)
  }

  /** What opening one endpoint takes of the memory; the control endpoint takes none. */
  function Taken(desc: seq<byte>): nat
    requires |desc| >= 6
  {
    var op := OpenOf(desc);
    if op.key.num == 0 then 0 else DpramAllocator.Reserved(op.mps, op.kind)
  }

  /** What the endpoints from descriptor `i` on take of it. */
  function Demanded(ds: seq<seq<byte>>, i: nat): nat
    requires i <= |ds| && WellFormed(ds) && AllDrivable(ds)
    decreases |ds| - i
  {
    if i == |ds| then 0
    else (if Kind(ds, i) == ENDPOINT then Taken(ds[i]) else 0) + Demanded(ds, i + 1)
  }

  /** The memory after the endpoints from descriptor `i` on have been opened. */
  function OpenedAll(ds: seq<seq<byte>>, i: nat, mem: Dpram): Dpram
    requires i <= |ds| && WellFormed(ds) && AllDrivable(ds)
    decreases |ds| - i
  {
    if i == |ds| then mem
    else OpenedAll(ds, i + 1, if Kind(ds, i) == ENDPOINT then DpramAllocator.Step(mem, OpenOf(ds[i])) else mem)
  }

  lemma ByteAt(arr: seq<byte>, len: nat, ds: seq<seq<byte>>, i: nat, k: nat)
    requires WellFormed(ds) && i < |ds| && len <= |arr| && arr[..len] == Concat(ds) && k < |ds[i]|
    ensures Offset(ds, i) + k < |arr| && arr[Offset(ds, i) + k] == ds[i][k]
  {
    hide Concat, Offset, WellFormed;
    DescriptorAt(arr, len, ds, i);
    assert arr[Offset(ds, i)..Offset(ds, i) + |ds[i]|][k] == ds[i][k];
  }

  lemma OpensAs(arr: seq<byte>, len: nat, ds: seq<seq<byte>>, i: nat)
    requires WellFormed(ds) && i < |ds| && len <= |arr| && arr[..len] == Concat(ds) && |ds[i]| >= 6
    ensures Offset(ds, i) + 6 <= |arr| && OpenAt(arr, Offset(ds, i)) == OpenOf(ds[i])
  {
    hide Concat, Offset, WellFormed;
    ByteAt(arr, len, ds, i, 2);
    ByteAt(arr, len, ds, i, 3);
    ByteAt(arr, len, ds, i, 4);
    ByteAt(arr, len, ds, i, 5);
  }

  /** In a buffer that starts with the descriptors, their endpoints have their drivers. */
  lemma DrivableThere(arr: seq<byte>, len: nat, ds: seq<seq<byte>>)
    requires WellFormed(ds) && AllDrivable(ds) && len <= |arr| && arr[..len] == Concat(ds)
    ensures DrivableIn(arr, ds)
  {
    hide Concat, Offset, WellFormed, Nearest, Kind;
    forall e | 0 <= e < |ds| && Kind(ds, e) == ENDPOINT
      ensures Offset(ds, e) + 6 <= |arr| && Drivable(arr, Place(ds, Nearest(ds, e)))
    {
      OpensAs(arr, len, ds, e);
      ByteAt(arr, len, ds, Nearest(ds, e).value, 5);
    }
  }

  lemma {:induction false} SameOpened(arr: seq<byte>, len: nat, ds: seq<seq<byte>>, i: nat, mem: Dpram)
    requires WellFormed(ds) && AllDrivable(ds) && len <= |arr| && arr[..len] == Concat(ds) && i <= |ds|
    requires DrivableIn(arr, ds)
    ensures Opened(arr, ds, i, mem) == OpenedAll(ds, i, mem)
    decreases |ds| - i
  {
    if i < |ds| {
      var isEndpoint := Kind(ds, i) == ENDPOINT;
      if isEndpoint { OpensAs(arr, len, ds, i); }
      hide Concat, Offset, WellFormed, AllDrivable, DrivableIn, DpramAllocator.Step, OpenAt, OpenOf;
      OneOpened(arr, ds, i, mem);
      SameOpened(arr, len, ds, i + 1, if isEndpoint then DpramAllocator.Step(mem, OpenOf(ds[i])) else mem);
    }
  }

  lemma TakesMemory(mem: Dpram, desc: seq<byte>)
    requires DpramAllocator.Inv(mem) && !mem.halted && |desc| >= 6
    ensures var mem' := DpramAllocator.Step(mem, OpenOf(desc));
      && DpramAllocator.Inv(mem')
      && (mem'.halted <==> mem.next + Taken(desc) > DpramAllocator.BASE + DpramAllocator.SIZE)
      && (!mem'.halted ==> mem'.next == mem.next + Taken(desc))
  {
    hide DpramAllocator.Reserved, DpramAllocator.DataOffset, DpramAllocator.EpCtrl, DpramAllocator.Decodes, OpenAt;
    var op := OpenOf(desc);
    DpramAllocator.ReservedFits(op.mps, op.kind);
    DpramAllocator.StepKeeps(mem, op);
  }

  lemma {:induction false} HaltedAll(ds: seq<seq<byte>>, i: nat, mem: Dpram)
    requires i <= |ds| && WellFormed(ds) && AllDrivable(ds) && mem.halted
    ensures OpenedAll(ds, i, mem).halted
    decreases |ds| - i
  {
    if i < |ds| {
      hide AllDrivable, WellFormed, OpenOf;
      HaltedAll(ds, i + 1, if Kind(ds, i) == ENDPOINT then DpramAllocator.Step(mem, OpenOf(ds[i])) else mem);
    }
  }

  /** The memory holds the endpoints exactly if what they take fits behind what is in use. */
  lemma {:induction false} HoldsAllIff(ds: seq<seq<byte>>, i: nat, mem: Dpram)
    requires i <= |ds| && WellFormed(ds) && AllDrivable(ds) && DpramAllocator.Inv(mem) && !mem.halted
    ensures OpenedAll(ds, i, mem).halted <==>
              mem.next + Demanded(ds, i) > DpramAllocator.BASE + DpramAllocator.SIZE
    ensures !OpenedAll(ds, i, mem).halted ==> OpenedAll(ds, i, mem).next == mem.next + Demanded(ds, i)
    decreases |ds| - i
  {
    hide AllDrivable, WellFormed, OpenOf, Taken, DpramAllocator.Inv, DpramAllocator.Step;
    if i == |ds| {
      InRange(mem);
    } else if Kind(ds, i) != ENDPOINT {
      HoldsAllIff(ds, i + 1, mem);
    } else {
      EndpointWhole(ds, i);
      TakesMemory(mem, ds[i]);
      var mem' := DpramAllocator.Step(mem, OpenOf(ds[i]));
      if mem'.halted { HaltedAll(ds, i + 1, mem'); } else { HoldsAllIff(ds, i + 1, mem'); }
    }
  }

  lemma InRange(mem: Dpram)
    requires DpramAllocator.Inv(mem)
    ensures mem.next <= DpramAllocator.BASE + DpramAllocator.SIZE
  {
  }

  lemma EndpointWhole(ds: seq<seq<byte>>, i: nat)
    requires i < |ds| && WellFormed(ds) && AllDrivable(ds) && Kind(ds, i) == ENDPOINT
    ensures |ds[i]| >= 6
  {
  }

  /** ... so for descriptors with drivers the walk finishes exactly if the memory holds them. */
  lemma FinishesIfHeld(arr: seq<byte>, len: nat, ds: seq<seq<byte>>, mem: Dpram)
    requires WellFormed(ds) && AllDrivable(ds) && len <= |arr| && arr[..len] == Concat(ds)
    requires DpramAllocator.Inv(mem) && !mem.halted
    ensures var w := WalkFrom(arr, len, 0, None, mem);
      && (w.end == Finished <==> mem.next + Demanded(ds, 0) <= DpramAllocator.BASE + DpramAllocator.SIZE)
      && (w.end == Finished ==> w.mem == OpenedAll(ds, 0, mem) && |w.registered| == |Endpoints(ds, 0)|)
  {
    hide AllDrivable, WellFormed, WalkFrom, DpramAllocator.Inv, Opened, OpenedAll, Demanded, Concat, DrivableIn;
    DrivableThere(arr, len, ds);
    SameOpened(arr, len, ds, 0, mem);
    HoldsAllIff(ds, 0, mem);
    WalksDescriptors(arr, len, ds, mem, 0);
  }

  // ---------------------------------------------------------------- which endpoints are opened

  /** The endpoint a descriptor names: its number and its direction. */
  function KeyOf(desc: seq<byte>): DpramAllocator.Key
    requires |desc| >= 6
  {
    DpramAllocator.Key(desc[2] % 16, desc[2] >= 0x80)
  }

  /** The buffer and control register of an endpoint as the bytes of its descriptor ask for them:
      transfer type, room for a packet or for two of a bulk endpoint, and a register that enables it
      with that type at that buffer's offset from `base`.  Section 9.6.6 of the USB 2.0
      specification. */
  predicate OpenedFor(slot: DpramAllocator.Slot, reg: nat, desc: seq<byte>)
    requires |desc| >= 6
  {
    var mps := ((desc[5] as int) * 256 + desc[4]) % 2048;
    && slot.kind == desc[3] % 4
    && (if desc[3] % 4 == 2 then 2 * mps <= slot.size < 2 * mps + 128 else mps <= slot.size < mps + 64)
    && reg / 0x8000_0000 == 1 && reg / 0x400_0000 % 4 == desc[3] % 4
    && 0x5010_0000 + reg % 0x1_0000 == slot.buffer
  }

  /** No descriptor from `i` on names the endpoint. */
  predicate NotNamed(ds: seq<seq<byte>>, i: nat, key: DpramAllocator.Key)
    requires i <= |ds| && WellFormed(ds) && AllDrivable(ds)
  {
    forall e :: i <= e < |ds| && ds[e][1] == 5 ==> KeyOf(ds[e]) != key
  }

  /** Endpoint descriptor `e` is the last that names its endpoint, which is not endpoint 0. */
  predicate LastNaming(ds: seq<seq<byte>>, e: nat)
    requires e < |ds| && WellFormed(ds) && AllDrivable(ds)
  {
    ds[e][1] == 5 && ds[e][2] % 16 != 0 && NotNamed(ds, e + 1, KeyOf(ds[e]))
  }

  /** From `mem` to `mem'` exactly the endpoints that descriptors from `i` on name have been opened,
      each as the last of its descriptors says, and no other has been touched. */
  ghost predicate EndpointsOpened(ds: seq<seq<byte>>, i: nat, mem: Dpram, mem': Dpram)
    requires i <= |ds| && WellFormed(ds) && AllDrivable(ds)
  {
    && (forall e :: i <= e < |ds| && LastNaming(ds, e) ==>
          var key := KeyOf(ds[e]);
          key in mem'.live && key in mem'.ctrl && OpenedFor(mem'.live[key], mem'.ctrl[key], ds[e]))
    && (forall key :: NotNamed(ds, i, key) ==> Same(mem, mem', key))
  }

  predicate Same(mem: Dpram, mem': Dpram, key: DpramAllocator.Key) {
    && (key in mem'.live <==> key in mem.live) && (key in mem.live ==> mem'.live[key] == mem.live[key])
    && (key in mem'.ctrl <==> key in mem.ctrl) && (key in mem.ctrl ==> mem'.ctrl[key] == mem.ctrl[key])
  }

  /** Opening one endpoint. */
  lemma OpensOne(mem: Dpram, desc: seq<byte>)
    requires DpramAllocator.Inv(mem) && !mem.halted && |desc| >= 6
    requires !DpramAllocator.Step(mem, OpenOf(desc)).halted
    ensures var mem', key := DpramAllocator.Step(mem, OpenOf(desc)), KeyOf(desc);
      && (desc[2] % 16 != 0 ==>
            key in mem'.live && key in mem'.ctrl && OpenedFor(mem'.live[key], mem'.ctrl[key], desc))
      && (forall other | other != key || desc[2] % 16 == 0 :: Same(mem, mem', other))
  {
    hide DpramAllocator.Reserved, DpramAllocator.DataOffset, DpramAllocator.EpCtrl, DpramAllocator.Inv,
      OpenedFor, OpenAt;
    var op := OpenOf(desc);
    OpenOfBytes(desc);
    NumberedRegister(mem, op.key);
    RegisterOf(mem.next, desc);
  }

  /** What the master reads out of a descriptor. */
  lemma OpenOfBytes(desc: seq<byte>)
    requires |desc| >= 6
    ensures OpenOf(desc) ==
      DpramAllocator.Open(KeyOf(desc), ((desc[5] as int) * 256 + desc[4]) % 2048, desc[3] % 4)
  {
  }

  lemma RegisterOf(p: nat, desc: seq<byte>)
    requires |desc| >= 6 && DpramAllocator.BASE <= p <= DpramAllocator.BASE + DpramAllocator.SIZE
    ensures var op := OpenOf(desc);
      var slot := DpramAllocator.Slot(p, DpramAllocator.Reserved(op.mps, op.kind), op.kind);
      OpenedFor(slot, DpramAllocator.EpCtrl(op.kind, p), desc)
  {
    hide DpramAllocator.Reserved, DpramAllocator.DataOffset, DpramAllocator.EpCtrl, OpenAt;
    var op := OpenOf(desc);
    OpenOfBytes(desc);
    DpramAllocator.ReservedFits(op.mps, op.kind);
    DpramAllocator.CtrlDecodes(p, DpramAllocator.Reserved(op.mps, op.kind), op.kind);
  }

  lemma NumberedRegister(mem: Dpram, key: DpramAllocator.Key)
    requires DpramAllocator.Inv(mem) && key.num < DpramAllocator.ENDPOINTS
    ensures key.num != 0 ==> key in mem.ctrl
    ensures mem.next <= DpramAllocator.BASE + DpramAllocator.SIZE && DpramAllocator.BASE <= mem.next
  {
  }

  lemma {:induction false} OpensKeys(ds: seq<seq<byte>>, i: nat, mem: Dpram)
    requires i <= |ds| && WellFormed(ds) && AllDrivable(ds) && DpramAllocator.Inv(mem) && !mem.halted
    requires !OpenedAll(ds, i, mem).halted
    ensures EndpointsOpened(ds, i, mem, OpenedAll(ds, i, mem))
    decreases |ds| - i
  {
    hide AllDrivable, WellFormed, OpenOf, DpramAllocator.Inv, DpramAllocator.Step, OpenedFor, KeyOf, Taken,
      EndpointsOpened;
    if i == |ds| {
      NoneOpened(ds, mem);
    } else if Kind(ds, i) != ENDPOINT {
      OpensKeys(ds, i + 1, mem);
      PassesOver(ds, i, mem, OpenedAll(ds, i, mem));
    } else {
      EndpointWhole(ds, i);
      TakesMemory(mem, ds[i]);
      var mem' := DpramAllocator.Step(mem, OpenOf(ds[i]));
      if mem'.halted {
        HaltedAll(ds, i + 1, mem');
      } else {
        OpensKeys(ds, i + 1, mem');
        OpensOne(mem, ds[i]);
        AddsFirst(ds, i, mem, mem', OpenedAll(ds, i, mem));
      }
    }
  }

  lemma NoneOpened(ds: seq<seq<byte>>, mem: Dpram)
    requires WellFormed(ds) && AllDrivable(ds)
    ensures EndpointsOpened(ds, |ds|, mem, mem)
  {
  }

  lemma PassesOver(ds: seq<seq<byte>>, i: nat, mem: Dpram, last: Dpram)
    requires i < |ds| && WellFormed(ds) && AllDrivable(ds) && Kind(ds, i) != ENDPOINT
    requires EndpointsOpened(ds, i + 1, mem, last)
    ensures EndpointsOpened(ds, i, mem, last)
  {
    hide AllDrivable, WellFormed, KeyOf, OpenedFor, Same;
    forall key | NotNamed(ds, i, key) ensures Same(mem, last, key) {
      assert NotNamed(ds, i + 1, key);
    }
  }

  lemma AddsFirst(ds: seq<seq<byte>>, i: nat, mem: Dpram, mem': Dpram, last: Dpram)
    requires i < |ds| && WellFormed(ds) && AllDrivable(ds) && Kind(ds, i) == ENDPOINT && |ds[i]| >= 6
    requires ds[i][2] % 16 != 0 ==>
      var key := KeyOf(ds[i]);
      key in mem'.live && key in mem'.ctrl && OpenedFor(mem'.live[key], mem'.ctrl[key], ds[i])
    requires forall other | other != KeyOf(ds[i]) || ds[i][2] % 16 == 0 :: Same(mem, mem', other)
    requires EndpointsOpened(ds, i + 1, mem', last)
    ensures EndpointsOpened(ds, i, mem, last)
  {
    hide AllDrivable, WellFormed, KeyOf, OpenedFor;
    forall key | NotNamed(ds, i, key) ensures Same(mem, last, key) {
      assert NotNamed(ds, i + 1, key) && KeyOf(ds[i]) != key;
      assert Same(mem, mem', key) && Same(mem', last, key);
    }
    if LastNaming(ds, i) {
      assert Same(mem', last, KeyOf(ds[i]));
    }
  }

  /** What an endpoint takes of the memory: its packet size rounded up to 64, twice that for bulk. */
  lemma TakenSays(desc: seq<byte>)
    requires |desc| >= 6
    ensures var mps := ((desc[5] as int) * 256 + desc[4]) % 2048;
      && Taken(desc) % 64 == 0 && (desc[2] % 16 == 0 ==> Taken(desc) == 0)
      && (desc[2] % 16 != 0 && desc[3] % 4 == 2 ==> 2 * mps <= Taken(desc) < 2 * mps + 128)
      && (desc[2] % 16 != 0 && desc[3] % 4 != 2 ==> mps <= Taken(desc) < mps + 64)
  {
    hide DpramAllocator.Reserved, OpenAt;
    OpenOfBytes(desc);
    DpramAllocator.ReservedFits(OpenOf(desc).mps, OpenOf(desc).kind);
  }

  /** A finished walk over descriptors with drivers has opened exactly the endpoints they name, each
      as the bytes of the last of its descriptors ask for. */
  lemma WalkOpensEndpoints(arr: seq<byte>, len: nat, ds: seq<seq<byte>>, mem: Dpram)
    requires WellFormed(ds) && AllDrivable(ds) && len <= |arr| && arr[..len] == Concat(ds)
    requires DpramAllocator.Inv(mem) && !mem.halted && WalkFrom(arr, len, 0, None, mem).end == Finished
    ensures EndpointsOpened(ds, 0, mem, WalkFrom(arr, len, 0, None, mem).mem)
  {
    hide AllDrivable, WellFormed, WalkFrom, DpramAllocator.Inv, OpenedAll, Demanded, Concat, EndpointsOpened;
    FinishesIfHeld(arr, len, ds, mem);
    HoldsAllIff(ds, 0, mem);
    OpensKeys(ds, 0, mem);
  }
}
