/** Any number of requests across both boards: when each of them goes through, and what the master
    has handled and offered to the PC in the end. */
module Sessions {
  import opened Common
  import opened TransferEngine
  import opened SlaveHost
  import HostPool
  import opened ControlRead
  import opened MasterDevice
  import opened DescriptorWalk
  import DpramAllocator
  import opened EndToEnd

  /** A request from the PC and the device's answer to it. */
  datatype Request = Request(su: Setup, r: seq<byte>)

  /** The slave can see the end of the answer: a read that is not unfinishable, or any first read
      of one packet before the packet size is known, or a request without data for the PC. */
  predicate Finishable(s: Host, q: Request) {
    && Forwarding(q.su)
    && (if !ToHost(q.su) then q.r == []
        else
          && q.su.wLength < LEN_LIMIT && |q.r| <= q.su.wLength
          && (if s.epx.mps == 0 then |q.r| <= 64 else !Unfinishable(|q.r|, s.epx.mps, q.su.wLength)))
  }

  /** The packets of the answer. */
  function PacketsOf(s: Host, q: Request): seq<seq<byte>>
    requires Finishable(s, q)
  {
    if !ToHost(q.su) then [[]] else if s.epx.mps == 0 then [q.r] else Respond(q.r, s.epx.mps, q.su.wLength)
  }

  // ---------------------------------------------------------------- the slave's half

  /** On the slave, in every case: all packets arrive, and they are forwarded, the last marked. */
  lemma AnsweredOnSlave(s: Host, q: Request)
    requires Ready(s) && Finishable(s, q)
    ensures var ps := PacketsOf(s, q);
      && ps != [] && Concat(ps) == q.r
      && Deliver(Asked(s, q.su), ps).Some?
      && ControlRead.Finished(Deliver(Asked(s, q.su), ps).value, q.su, s.devAddr, s.tx + Forwarded(ps))
  {
    hide Deliver, Asked, ControlRead.Finished, Reading, Respond;
    var ps := PacketsOf(s, q);
    if !ToHost(q.su) {
      WriteOnSlave(s, q.su);
      OnePacket([]);
    } else if s.epx.mps == 0 {
      FirstReadOnSlave(s, q.su, q.r);
      OnePacket(q.r);
    } else {
      ReadOnSlave(s, q.su, q.r);
    }
    var s' := Deliver(Asked(s, q.su), ps).value;
    assert Answered(s', q.su, s.devAddr, s.tx, ps, true);
    assert s.tx + Packets(ps[..|ps| - 1]) + [Packet(ps[|ps| - 1], true)] == s.tx + Forwarded(ps);
  }

  lemma OnePacket(p: seq<byte>)
    ensures Concat([p]) == p
  {
    assert [p][1..] == [];
  }

  /** Control transfers touch neither the other endpoints nor the packet size. */
  ghost predicate SameRest(s: Host, s': Host) { s'.pool == s.pool && s'.epx.mps == s.epx.mps }

  lemma XferSame(s: Host, devAddr: byte, epAddr: byte, buffer: UserBuf, len: u16)
    ensures SameRest(s, EdptXfer(s, devAddr, epAddr, buffer, len))
  {
    hide CtrlWord, HostFlips, CanArm, Write, Peek, HostPool.Lookup;
  }

  lemma EventSame(s: Host, devAddr: byte, epAddr: byte, xferred: nat, outcome: Outcome)
    ensures SameRest(s, Event(s, devAddr, epAddr, xferred, outcome))
  {
    hide EdptXfer;
    XferSame(s.(level := 1), devAddr, 0x80, Mem(s.bugger, 0), ReadLength(s.setup));
    XferSame(s.(level := 2), devAddr, 0x00, Null, 0);
    XferSame(s, devAddr, 0x80, Mem(s.bugger, 0), ReadLength(s.setup));
  }

  lemma BufferSame(s: Host, data: seq<byte>)
    requires CanDeliver(s, data)
    ensures SameRest(s, ControlBuffer(s, data))
  {
    hide Event, Write, CtrlWord, HostFlips, CanArm, Peek;
    var (e, done) := Continue(Delivered(s, data), Slave);
    assert e.mps == s.epx.mps;
    var s1 := s.(epx := e, bugger := if s.epx.user.Mem? then e.user.bytes else s.bugger);
    var s2 := if done then s1.(epx := ResetTransfer(s1.epx)) else s1;
    EventSame(s2, s1.epx.devAddr, s1.epx.epAddr, s1.epx.xferred, if done then Success else Partial);
  }

  lemma AskedSame(s: Host, su: Setup)
    ensures SameRest(s, Asked(s, su))
  {
    hide Event, Slavework;
    Requests(s, su);
    var s1 := Slavework(s, SetupMessage(su));
    EventSame(s1.(epx := ResetTransfer(s1.epx)), s1.epx.devAddr, s1.epx.epAddr, s1.epx.xferred, Success);
  }

  lemma {:induction false} DeliverSame(s: Host, ps: seq<seq<byte>>)
    requires Deliver(s, ps).Some?
    ensures SameRest(s, Deliver(s, ps).value)
    decreases |ps|
  {
    hide CanDeliver, ControlBuffer;
    if ps != [] {
      BufferSame(s, ps[0]);
      DeliverSame(ControlBuffer(s, ps[0]), ps[1..]);
    }
  }

  /** The slave when it has answered, the status stage of a read included. */
  function Replied(s: Host, q: Request): (s': Host)
    requires Ready(s) && Finishable(s, q)
    ensures Ready(s') && s'.tx == s.tx + Forwarded(PacketsOf(s, q)) && SameRest(s, s')
  {
    hide Deliver, Asked, Forwarded, ControlBuffer, CanDeliver;
    AnsweredOnSlave(s, q);
    AskedSame(s, q.su);
    DeliverSame(Asked(s, q.su), PacketsOf(s, q));
    var s1 := Deliver(Asked(s, q.su), PacketsOf(s, q)).value;
    if ToHost(q.su) then
      StatusStage(s1, q.su, s.devAddr, s.tx + Forwarded(PacketsOf(s, q)));
      BufferSame(s1, []);
      ControlBuffer(s1, [])
    else s1
  }

  // ---------------------------------------------------------------- the master's half

  predicate AsksReport(su: Setup) { su.wValue == 0x2200 && su.wIndex == 1 }

  /** The aggregator's buffer with an answer in it; behind it is what was there before. */
  function Stored(d: Device, r: seq<byte>): (arr: seq<byte>)
    requires Sound(d) && |r| <= AGGREGATE
    ensures |arr| == AGGREGATE && arr[..|r|] == r
  {
    r + d.aggregate[|r|..]
  }

  lemma StoresMore(d: Device, base: Device, got: seq<byte>, p: seq<byte>)
    requires Sound(base) && Sound(d) && |got| + |p| <= AGGREGATE && d.len == |got| && d.aggregate == Stored(base, got)
    ensures Registering(d, p).aggregate == Stored(base, got + p)
  {
  }

  lemma StoresPacket(d: Device, base: Device, got: seq<byte>, p: seq<byte>, tail: seq<Message>)
    requires Sound(base) && Collecting(d, got) && |got| + |p| <= AGGREGATE && d.aggregate == Stored(base, got)
    requires d.rx == [Packet(p, false)] + tail
    ensures SlaveEvent(d).aggregate == Stored(base, got + p)
  {
    hide Has, Packet, Registering, Stored;
    IsLast(p, false);
    assert SkipStrings(d.rx) == d.rx && d.rx[1..] == tail;
    var m := Packet(p, false);
    assert m.payload[..|p|] == p;
    RegisteringSays(d.(rx := tail), p);
    StoresMore(d.(rx := tail), base, got, p);
  }

  lemma {:induction false} Stores(d: Device, ps: seq<seq<byte>>, tail: seq<Message>)
    requires Collecting(d, []) && |Concat(ps)| <= AGGREGATE && d.rx == Packets(ps) + tail
    ensures Poll(d, |ps|).aggregate == Stored(d, Concat(ps))
    decreases |ps|
  {
    assert Sound(d);
    hide SlaveEvent, Collecting;
    if ps != [] {
      var n := |ps| - 1;
      var front, p := ps[..n], ps[n];
      assert ps == front + [p];
      ConcatSnoc(front, p);
      assert d.rx == Packets(front) + ([Packet(p, false)] + tail);
      Collects(d, front, [Packet(p, false)] + tail);
      Stores(d, front, [Packet(p, false)] + tail);
      StoresPacket(Poll(d, n), d, Concat(front), p, tail);
    }
  }

  /** The master with the whole answer in its aggregator, just before it acts on it. */
  lemma ActsOn(d: Device, ps: seq<seq<byte>>) returns (d1: Device)
    requires Collecting(d, []) && ps != [] && |Concat(ps)| <= AGGREGATE && d.rx == Forwarded(ps)
    ensures Sound(d1) && !d1.halted && d1.aggregate == Stored(d, Concat(ps)) && d1.len == |Concat(ps)|
    ensures d1.tx == d.tx && d1.setup == d.setup && d1.mem == d.mem && d1.mps == d.mps
    ensures var d', h := Poll(d, |ps|), HandleResponse(d1);
      d'.tx == h.tx && d'.mem == h.mem && d'.halted == h.halted
  {
    BeforeLast(d, ps);
    var n := |ps| - 1;
    hide Packets, Collecting, SlaveEvent, Poll, HandleResponse, Registering, Concat, Stored;
    assert d.rx == Packets(ps[..n]) + [Packet(ps[n], true)];
    Grows(ps, n);
    Stores(d, ps[..n], [Packet(ps[n], true)]);
    var d0 := Poll(d, n);
    FillsTo(d0, Concat(ps[..n]));
    TakesLast(d0, Concat(ps[..n]), ps[n]);
    d1 := Registering(d0.(rx := []), ps[n]);
    StoresMore(d0.(rx := []), d, Concat(ps[..n]), ps[n]);
  }

  lemma FillsTo(d: Device, got: seq<byte>)
    requires Collecting(d, got)
    ensures Sound(d) && d.len == |got|
  {
  }

  lemma Grows(ps: seq<seq<byte>>, n: nat)
    requires n <= |ps|
    ensures |Concat(ps[..n])| <= |Concat(ps)|
  {
    ConcatFits(ps, n);
  }

  /** The walk over an answer to a request for a whole configuration. */
  function WalkOf(d: Device, q: Request): Walked
    requires Sound(d) && |q.r| <= AGGREGATE
  {
    WalkFrom(Stored(d, q.r), |q.r|, 0, None, d.mem)
  }

  /** What the answer has the master ask of the slave: the packet size, or the endpoints to
      open, or a transfer of one packet on endpoint 0x81. */
  function Orders(d: Device, q: Request): seq<Message>
    requires Sound(d) && |q.r| <= AGGREGATE
  {
    if AsksDevice(q.su) then [Message(CHG_EPX_PACKETSIZE + DEBUG_PRINT_AS_HEX, [Stored(d, q.r)[7]])]
    else if AsksConfiguration(q.su) then OpenMessages(WalkOf(d, q).registered)
    else if AsksReport(q.su) then [Knock(0x81, d.mps)]
    else []
  }

  predicate MasterStops(d: Device, q: Request)
    requires Sound(d) && |q.r| <= AGGREGATE
  {
    AsksConfiguration(q.su) && WalkOf(d, q).end != Finished
  }

  lemma HandlesSays(d: Device, d1: Device, q: Request)
    requires Sound(d) && |q.r| <= AGGREGATE && q.su.bRequest != SET_ADDRESS
    requires Sound(d1) && !d1.halted && d1.aggregate == Stored(d, q.r) && d1.len == |q.r|
    requires d1.setup == q.su && d1.mem == d.mem && d1.mps == d.mps
    ensures var h := HandleResponse(d1);
      && h.halted == MasterStops(d, q) && h.tx == d1.tx + Orders(d, q)
      && h.mem == (if AsksConfiguration(q.su) then WalkOf(d, q).mem else d.mem)
  {
    hide WalkFrom, OpenMessages, Knock, Stored;
    assert d1.tx + [] == d1.tx;
  }

  // ---------------------------------------------------------------- the orders on the slave

  /** The slave is ready for a request and its endpoint pool is in order. */
  predicate Up(s: Host) { Ready(s) && !s.pool.halted }

  /** The slave works off some messages. */
  function WorkAll(s: Host, ms: seq<Message>): Host
    decreases |ms|
  {
    if ms == [] then s else WorkAll(Slavework(s, ms[0]), ms[1..])
  }

  lemma OneOpen(s: Host, r: Registered)
    ensures var s' := Slavework(s, OpenMessage(r));
      && s'.epx == s.epx && s'.bugger == s.bugger
      && (s.halted ==> s'.halted)
      && (!s.halted ==> s'.halted == (s.pool.halted || !HostPool.Openable(r.desc)))
      && (!s'.halted ==> !s'.pool.halted)
  {
    hide Slavework, HostPool.Allocate, HostPool.Numbered;
    OpensOnSlave(s, r.desc);
  }

  lemma {:induction false} OpensAllIff(s: Host, rs: seq<Registered>)
    requires !s.pool.halted
    ensures var s' := WorkAll(s, OpenMessages(rs));
      && s'.epx == s.epx && s'.bugger == s.bugger && (!s'.halted ==> !s'.pool.halted)
      && (s'.halted <==> s.halted || exists r :: r in rs && !HostPool.Openable(r.desc))
    decreases |rs|
  {
    if rs != [] {
      hide Slavework, HostPool.Openable, OpenMessage;
      var s1 := Slavework(s, OpenMessage(rs[0]));
      OneOpen(s, rs[0]);
      assert OpenMessages(rs)[1..] == OpenMessages(rs[1..]);
      if s1.halted {
        OpensHalted(s1, rs[1..]);
      } else {
        OpensAllIff(s1, rs[1..]);
      }
      assert forall r :: r in rs <==> r == rs[0] || r in rs[1..];
    }
  }

  lemma {:induction false} OpensHalted(s: Host, rs: seq<Registered>)
    requires s.halted
    ensures var s' := WorkAll(s, OpenMessages(rs)); s'.halted && s'.epx == s.epx && s'.bugger == s.bugger
    decreases |rs|
  {
    if rs != [] {
      hide Slavework, OpenMessage;
      OneOpen(s, rs[0]);
      assert OpenMessages(rs)[1..] == OpenMessages(rs[1..]);
      OpensHalted(Slavework(s, OpenMessage(rs[0])), rs[1..]);
    }
  }

  // ---------------------------------------------------------------- a configuration on the slave

  predicate AllOpenable(rs: seq<Registered>) {
    forall i :: 0 <= i < |rs| ==> HostPool.Openable(rs[i].desc)
  }

  function Descs(rs: seq<Registered>): (ds: seq<HostPool.Desc>)
    requires AllOpenable(rs)
    ensures |ds| == |rs| && forall i :: 0 <= i < |rs| ==> ds[i] == HostPool.DescOf(rs[i].desc)
  {
    seq(|rs|, i requires 0 <= i < |rs| => HostPool.DescOf(rs[i].desc))
  }

  /** The orders of a configuration are a run of opens on the slave's pool. */
  lemma {:induction false} OpensAreRun(s: Host, before: seq<HostPool.Desc>, rs: seq<Registered>)
    requires !s.halted && !s.pool.halted && AllOpenable(rs) && s.pool == HostPool.Run(before, s.devAddr)
    ensures var s' := WorkAll(s, OpenMessages(rs));
      s'.pool == HostPool.Run(before + Descs(rs), s.devAddr) && !s'.pool.halted
    decreases |rs|
  {
    hide Slavework, OpenMessage, HostPool.DescOf, HostPool.Run;
    if rs == [] {
      assert before + Descs(rs) == before;
    } else {
      var s1 := Slavework(s, OpenMessage(rs[0]));
      var first := HostPool.DescOf(rs[0].desc);
      OneOpen(s, rs[0]);
      OneRun(s, before, rs[0]);
      assert OpenMessages(rs)[1..] == OpenMessages(rs[1..]);
      OpensAreRun(s1, before + [first], rs[1..]);
      assert before + [first] + Descs(rs[1..]) == before + Descs(rs);
    }
  }

  lemma OneRun(s: Host, before: seq<HostPool.Desc>, r: Registered)
    requires !s.halted && !s.pool.halted && HostPool.Openable(r.desc) && s.pool == HostPool.Run(before, s.devAddr)
    ensures var s' := Slavework(s, OpenMessage(r));
      s'.pool == HostPool.Run(before + [HostPool.DescOf(r.desc)], s.devAddr) && s'.devAddr == s.devAddr
  {
    hide Slavework, HostPool.Allocate, HostPool.Numbered;
    OpensOnSlave(s, r.desc);
    assert (before + [HostPool.DescOf(r.desc)])[..|before|] == before;
  }

  lemma EntryIsSlot(desc: seq<byte>, k: nat, devAddr: byte)
    requires HostPool.Openable(desc)
    ensures HostPool.SlotOf(HostPool.Entry(HostPool.DescOf(desc), k, devAddr), k + 1, desc, devAddr, true)
    ensures HostPool.DescOf(desc).epAddr == desc[2] && Number(desc[2]) != 0
  {
  }

  /** Up to fifteen endpoints of one configuration, on a slave that has opened none: afterwards the
      `k`th has slot `k + 1`, set up as the bytes of its descriptor say, and is found there. */
  lemma ConfigurationFillsPool(s: Host, rs: seq<Registered>, k: nat)
    requires !s.halted && s.pool == HostPool.Pool(HostPool.Blank(HostPool.SLOTS), false)
    requires |rs| < HostPool.SLOTS && k < |rs| && AllOpenable(rs)
    requires forall i, j :: 0 <= i < j < |rs| ==> rs[i].desc[2] != rs[j].desc[2]
    ensures var eps, desc := WorkAll(s, OpenMessages(rs)).pool.eps, rs[k].desc;
      HostPool.SlotOf(eps[k + 1], k + 1, desc, s.devAddr, true) && HostPool.Lookup(eps, desc[2]) == Some(k + 1)
  {
    hide HostPool.Run, HostPool.Lookup, WorkAll, HostPool.Entry, HostPool.DescOf, HostPool.SlotOf, OpenMessages,
      HostPool.Distinct;
    var ds := Descs(rs);
    NoRun(s.devAddr);
    OpensAreRun(s, [], rs);
    assert [] + ds == ds;
    DistinctDescs(rs);
    HostPool.LookupFindsIff(ds, s.devAddr, k);
    EntryIsSlot(rs[k].desc, k, s.devAddr);
  }

  lemma DistinctDescs(rs: seq<Registered>)
    requires AllOpenable(rs) && forall i, j :: 0 <= i < j < |rs| ==> rs[i].desc[2] != rs[j].desc[2]
    ensures HostPool.Distinct(Descs(rs))
  {
    forall i | 0 <= i < |rs| ensures Descs(rs)[i].epAddr == rs[i].desc[2] && rs[i].desc[2] != 0 {
      EntryIsSlot(rs[i].desc, i, 0);
    }
    hide HostPool.DescOf;
  }

  lemma NoRun(devAddr: byte)
    ensures HostPool.Run([], devAddr) == HostPool.Pool(HostPool.Blank(HostPool.SLOTS), false)
  {
  }

  lemma OneOrder(s: Host, m: Message)
    ensures WorkAll(s, [m]) == Slavework(s, m)
  {
    hide Slavework;
    assert [m][1..] == [] && WorkAll(Slavework(s, m), []) == Slavework(s, m);
  }

  /** The slave can do what the answer has the master ask of it. */
  predicate SlaveDoes(s: Host, d: Device, q: Request)
    requires Sound(d) && |q.r| <= AGGREGATE
  {
    && (AsksDevice(q.su) ==> Stored(d, q.r)[7] <= 64)
    && (AsksConfiguration(q.su) ==> forall r :: r in WalkOf(d, q).registered ==> HostPool.Openable(r.desc))
    && (AsksReport(q.su) ==> HostPool.Lookup(s.pool.eps, 0x81).Some?)
  }

  lemma ReadyAfterReport(s: Host, n: byte)
    requires Ready(s)
    ensures var s' := Slavework(s, Knock(0x81, n));
      && (HostPool.Lookup(s.pool.eps, 0x81).None? ==> s'.halted)
      && (HostPool.Lookup(s.pool.eps, 0x81).Some? ==> Ready(s') && s'.pool == s.pool)
  {
    hide XferStart, CanArm, HostPool.LookupFrom, HostPool.Open, SetupOf;
    assert (USB_DATA + DEBUG_PRINT_AS_HEX) % DEBUG_PRINT_AS_HEX == USB_DATA;
  }

  lemma UpAfterOrders(s: Host, s0: Host, d: Device, q: Request)
    requires Up(s) && s.pool == s0.pool && Sound(d) && |q.r| <= AGGREGATE
    ensures Up(WorkAll(s, Orders(d, q))) <==> SlaveDoes(s0, d, q)
  {
    hide Slavework, WalkFrom, OpenMessages, Knock, Stored, HostPool.Openable, HostPool.Lookup;
    if AsksDevice(q.su) {
      var size := Stored(d, q.r)[7];
      OneOrder(s, Message(CHG_EPX_PACKETSIZE + DEBUG_PRINT_AS_HEX, [size]));
      ChangesPacketSize(s, size);
    } else if AsksConfiguration(q.su) {
      OpensAllIff(s, WalkOf(d, q).registered);
    } else if AsksReport(q.su) {
      OneOrder(s, Knock(0x81, d.mps));
      ReadyAfterReport(s, d.mps);
    }
  }

  // ---------------------------------------------------------------- one request

  /** The master waits for a request. */
  predicate Waiting(d: Device) { Collecting(d, []) && d.rx == [] }

  /** One request across both boards: setup packet, answer, status stage, and whatever the answer
      has the master ask of the slave. */
  function Exchange(s: Host, d: Device, q: Request): (Host, Device)
    requires Up(s) && Waiting(d) && Finishable(s, q)
  {
    hide Forwarded, Poll, SetupReceived;
    var ps := PacketsOf(s, q);
    AnsweredOnSlave(s, q);
    EndToEnd.Forwards(d, q.su, []);
    MasterSays(d, q, ps);
    var d' := Poll(SetupReceived(d, q.su).(rx := Forwarded(ps)), |ps| + 1);
    (WorkAll(Replied(s, q), d'.tx[|d.tx| + 1..]), d')
  }

  /** What the master does with the answer, whether or not it stops at it. */
  lemma MasterSays(d: Device, q: Request, ps: seq<seq<byte>>)
    requires Waiting(d) && Forwarding(q.su) && ps != [] && Concat(ps) == q.r && |q.r| <= AGGREGATE
    ensures var d0 := SetupReceived(d, q.su).(rx := Forwarded(ps));
      && Sound(d0)
      && var d' := Poll(d0, |ps| + 1);
      && d'.tx == d.tx + [SetupMessage(q.su)] + Orders(d, q)
      && d'.handled == d.handled + [q.r] && d'.setup == q.su && d'.rx == [] && d'.address == d.address
      && d'.mem == (if AsksConfiguration(q.su) then WalkOf(d, q).mem else d.mem)
      && d'.halted == MasterStops(d, q)
      && (!d'.halted ==> Waiting(d') && d'.armed == d.armed + Armed(ps) + StatusOf(q.su))
  {
    EndToEnd.Forwards(d, q.su, []);
    var d0 := SetupReceived(d, q.su).(rx := Forwarded(ps));
    hide SetupReceived, Forwarded, Poll, HandleResponse, SlaveEvent, Collecting, Orders, WalkOf, MasterStops, Stored;
    CollectsStill(SetupReceived(d, q.su), Forwarded(ps));
    Aggregates(d0, ps);
    var d1 := ActsOn(d0, ps);
    SameStored(d, d0, q);
    HandlesSays(d0, d1, q);
    PollsOnce(d0, |ps|);
    if MasterStops(d, q) { StopsFor(Poll(d0, |ps|)); }
  }

  lemma SameStored(d: Device, d0: Device, q: Request)
    requires Sound(d) && Sound(d0) && |q.r| <= AGGREGATE
    requires d0.aggregate == d.aggregate && d0.mem == d.mem && d0.mps == d.mps
    ensures Stored(d0, q.r) == Stored(d, q.r) && WalkOf(d0, q) == WalkOf(d, q) && Orders(d0, q) == Orders(d, q)
    ensures MasterStops(d0, q) == MasterStops(d, q)
  {
    hide WalkFrom, OpenMessages, Knock;
  }

  lemma StopsFor(d: Device)
    requires Sound(d) && d.halted && d.rx == [] && d.reading
    ensures SlaveEvent(d) == d
  {
  }

  /** Whether a request goes through, by what the two boards are asked to do with its answer. */
  predicate GoesThrough(s: Host, d: Device, q: Request)
    requires Sound(d) && |q.r| <= AGGREGATE
  {
    !MasterStops(d, q) && SlaveDoes(s, d, q)
  }

  /** Exactly when a request goes through: then the answer has been handled once and offered to
      the PC packet by packet with the status of a read behind it, and both boards are ready
      for the next request; else one of them has stopped, or the slave's packet size is over
      what its buffer holds. */
  lemma ExchangeGoesThroughIff(s: Host, d: Device, q: Request)
    requires Up(s) && Waiting(d) && Finishable(s, q)
    ensures var (s', d') := Exchange(s, d, q);
      && d'.handled == d.handled + [q.r] && d'.setup == q.su && d'.address == d.address
      && (Up(s') && Waiting(d') <==> GoesThrough(s, d, q))
      && (GoesThrough(s, d, q) ==> d'.armed == d.armed + Armed(PacketsOf(s, q)) + StatusOf(q.su))
  {
    var ps := PacketsOf(s, q);
    AnsweredOnSlave(s, q);
    hide PacketsOf, Forwarded, Poll, SetupReceived, WorkAll, Orders, MasterStops, SlaveDoes, Up, WalkOf, Collecting,
      Replied;
    MasterSays(d, q, ps);
    UpReplied(s, q);
    UpAfterOrders(Replied(s, q), s, d, q);
    assert (d.tx + [SetupMessage(q.su)] + Orders(d, q))[|d.tx| + 1..] == Orders(d, q);
    StoppedNotWaiting(Exchange(s, d, q).1);
  }

  lemma StoppedNotWaiting(d: Device)
    ensures d.halted ==> !Waiting(d)
  {
  }

  lemma UpReplied(s: Host, q: Request)
    requires Up(s) && Finishable(s, q)
    ensures Up(Replied(s, q)) && Replied(s, q).pool == s.pool
  {
    hide Replied, Finishable;
  }

  /** A request for neither the device descriptor, nor a whole configuration, nor the report
      descriptor of interface 1. */
  predicate Plain(q: Request) {
    && !(q.su.bRequest == 6 && q.su.wValue == 0x0100)
    && !(q.su.wValue == 0x0200 && q.su.wLength > 9)
    && !(q.su.wValue == 0x2200 && q.su.wIndex == 1)
  }

  /** The requests that ask nothing more of the boards always go through. */
  lemma PlainGoesThrough(s: Host, d: Device, q: Request)
    requires Sound(d) && |q.r| <= AGGREGATE
    requires Plain(q)
    ensures GoesThrough(s, d, q)
  {
  }

  /** A device descriptor goes through if and only if it names a packet size of at most 64. */
  lemma DeviceGoesThroughIff(s: Host, d: Device, q: Request)
    requires Sound(d) && 8 <= |q.r| <= AGGREGATE && AsksDevice(q.su)
    ensures GoesThrough(s, d, q) <==> q.r[7] <= 64
  {
    assert Stored(d, q.r)[7] == Stored(d, q.r)[..|q.r|][7];
  }

  /** A report request goes through if and only if the slave has opened endpoint 0x81. */
  lemma ReportGoesThroughIff(s: Host, d: Device, q: Request)
    requires Sound(d) && |q.r| <= AGGREGATE && AsksReport(q.su)
    ensures GoesThrough(s, d, q) <==> HostPool.Lookup(s.pool.eps, 0x81).Some?
  {
  }

  /** A configuration whose endpoints all have drivers goes through if and only if what they take
      fits the device's memory and the slave can open each of them. */
  lemma ConfigurationGoesThroughIff(s: Host, d: Device, q: Request, ds: seq<seq<byte>>)
    requires Sound(d) && |q.r| <= AGGREGATE && AsksConfiguration(q.su)
    requires DpramAllocator.Inv(d.mem) && !d.mem.halted
    requires WellFormed(ds) && Concat(ds) == q.r && AllDrivable(ds)
    ensures GoesThrough(s, d, q) <==>
      && d.mem.next + Demanded(ds, 0) <= DpramAllocator.BASE + DpramAllocator.SIZE
      && forall e :: 0 <= e < |ds| && Kind(ds, e) == ENDPOINT ==> HostPool.Openable(ds[e])
  {
    hide HostPool.Openable, WellFormed, AllDrivable, Concat, Demanded, WalkFrom, Stored, OpenMessages,
      DpramAllocator.Inv;
    var arr := Stored(d, q.r);
    FinishesIfHeld(arr, |q.r|, ds, d.mem);
    if WalkOf(d, q).end == Finished {
      RegisteredAre(arr, |q.r|, ds, d.mem);
      SameDescriptors(ds, WalkOf(d, q).registered);
    }
  }

  lemma SameDescriptors(ds: seq<seq<byte>>, rs: seq<Registered>)
    requires WellFormed(ds) && |rs| == |Endpoints(ds, 0)|
    requires var es := Endpoints(ds, 0); forall k :: 0 <= k < |es| ==> es[k] < |ds| && rs[k].desc == ds[es[k]]
    ensures (forall r :: r in rs ==> HostPool.Openable(r.desc)) <==>
              forall e :: 0 <= e < |ds| && Kind(ds, e) == ENDPOINT ==> HostPool.Openable(ds[e])
  {
    hide HostPool.Openable, WellFormed, Kind;
    var es := Endpoints(ds, 0);
    if forall r :: r in rs ==> HostPool.Openable(r.desc) {
      forall e | 0 <= e < |ds| && Kind(ds, e) == ENDPOINT ensures HostPool.Openable(ds[e]) {
        assert e in es;
        var k :| 0 <= k < |es| && es[k] == e;
        assert rs[k] in rs;
      }
    }
    if forall e :: 0 <= e < |ds| && Kind(ds, e) == ENDPOINT ==> HostPool.Openable(ds[e]) {
      forall r | r in rs ensures HostPool.Openable(r.desc) {
        var k :| 0 <= k < |rs| && rs[k] == r;
        assert es[k] in es;
      }
    }
  }

  /** The walk registers the endpoint descriptors one by one. */
  lemma RegisteredAre(arr: seq<byte>, len: nat, ds: seq<seq<byte>>, mem: Dpram)
    requires WellFormed(ds) && AllDrivable(ds) && len <= |arr| && arr[..len] == Concat(ds) && !mem.halted
    requires WalkFrom(arr, len, 0, None, mem).end == Finished
    ensures var rs, es := WalkFrom(arr, len, 0, None, mem).registered, Endpoints(ds, 0);
      |rs| == |es| && forall k :: 0 <= k < |es| ==> es[k] < |ds| && rs[k].desc == ds[es[k]]
  {
    hide WellFormed, AllDrivable, Concat, WalkFrom, DrivableIn, Opened;
    DrivableThere(arr, len, ds);
    var rs, es := WalkFrom(arr, len, 0, None, mem).registered, Endpoints(ds, 0);
    WalksDescriptors(arr, len, ds, mem, 0);
    forall k | 0 <= k < |es| ensures es[k] < |ds| && rs[k].desc == ds[es[k]] {
      WalksDescriptors(arr, len, ds, mem, k);
    }
  }

  // ---------------------------------------------------------------- any number of requests

  /** Each request in turn has an end that the slave can see, and goes through. */
  predicate AllGoThrough(s: Host, d: Device, qs: seq<Request>)
    requires Up(s) && Waiting(d)
    decreases |qs|
  {
    qs == [] ||
    (Finishable(s, qs[0]) && GoesThrough(s, d, qs[0]) &&
     (ExchangeGoesThroughIff(s, d, qs[0]);
      var (s', d') := Exchange(s, d, qs[0]);
      AllGoThrough(s', d', qs[1..])))
  }

  /** Both boards after these requests, one after the other. */
  function Session(s: Host, d: Device, qs: seq<Request>): (Host, Device)
    requires Up(s) && Waiting(d) && AllGoThrough(s, d, qs)
    decreases |qs|
  {
    if qs == [] then (s, d)
    else
      ExchangeGoesThroughIff(s, d, qs[0]);
      var (s', d') := Exchange(s, d, qs[0]);
      Session(s', d', qs[1..])
  }

  function AnswersOf(qs: seq<Request>): (rs: seq<seq<byte>>)
    ensures |rs| == |qs|
  {
    if qs == [] then [] else [qs[0].r] + AnswersOf(qs[1..])
  }

  /** Any number of requests, one after the other, each of which the slave can see the end of and
      which the boards can act on: what the master has handled is exactly the list of the
      device's answers, and both boards are ready for the next request. */
  lemma {:induction false} SessionEndToEnd(s: Host, d: Device, qs: seq<Request>)
    requires Up(s) && Waiting(d) && AllGoThrough(s, d, qs)
    ensures var (s', d') := Session(s, d, qs);
      && d'.handled == d.handled + AnswersOf(qs) && d'.address == d.address
      && Up(s') && Waiting(d')
    decreases |qs|
  {
    if qs == [] {
      assert d.handled + [] == d.handled;
    } else {
      hide Exchange, Up, Waiting, Finishable, GoesThrough;
      ExchangeGoesThroughIff(s, d, qs[0]);
      var (s', d') := Exchange(s, d, qs[0]);
      SessionEndToEnd(s', d', qs[1..]);
      Regroups(d.handled, [qs[0].r], AnswersOf(qs[1..]));
    }
  }

  lemma KeepsSize(s: Host, d: Device, q: Request)
    requires Up(s) && Waiting(d) && Finishable(s, q) && Plain(q)
    ensures Exchange(s, d, q).0.epx.mps == s.epx.mps
  {
    var ps := PacketsOf(s, q);
    AnsweredOnSlave(s, q);
    hide PacketsOf, Forwarded, Poll, SetupReceived, WalkOf, Collecting, Replied, Slavework;
    MasterSays(d, q, ps);
    assert (d.tx + [SetupMessage(q.su)] + [])[|d.tx| + 1..] == [];
  }

  /** Requests that ask nothing more of the boards need only be finishable at the packet size that
      the slave has at the start. */
  lemma {:induction false} PlainSession(s: Host, d: Device, qs: seq<Request>)
    requires Up(s) && Waiting(d) && forall q :: q in qs ==> Plain(q) && Finishable(s, q)
    ensures AllGoThrough(s, d, qs)
    decreases |qs|
  {
    hide Exchange, Up, Waiting, GoesThrough, Finishable, Plain;
    if qs != [] {
      assert qs[0] in qs;
      PlainExchange(s, d, qs[0]);
      var (s', d') := Exchange(s, d, qs[0]);
      forall q | q in qs[1..] ensures Plain(q) && Finishable(s', q) {
        assert q in qs;
        SameFinishable(s, s', q);
      }
      PlainSession(s', d', qs[1..]);
      ConsGoes(s, d, qs);
    }
  }

  lemma PlainExchange(s: Host, d: Device, q: Request)
    requires Up(s) && Waiting(d) && Finishable(s, q) && Plain(q)
    ensures Sound(d) && |q.r| <= AGGREGATE && GoesThrough(s, d, q)
    ensures var (s', d') := Exchange(s, d, q); Up(s') && Waiting(d') && s'.epx.mps == s.epx.mps
  {
    hide Exchange, Up, Waiting, GoesThrough, Finishable, Plain;
    AnswerFits(s, d, q);
    KeepsSize(s, d, q);
    PlainGoesThrough(s, d, q);
    ExchangeGoesThroughIff(s, d, q);
  }

  lemma SameFinishable(s: Host, s': Host, q: Request)
    requires s'.epx.mps == s.epx.mps
    ensures Finishable(s', q) == Finishable(s, q)
  {
  }

  lemma ConsGoes(s: Host, d: Device, qs: seq<Request>)
    requires Up(s) && Waiting(d) && qs != [] && Finishable(s, qs[0])
    requires Sound(d) && |qs[0].r| <= AGGREGATE && GoesThrough(s, d, qs[0])
    requires var (s', d') := Exchange(s, d, qs[0]); Up(s') && Waiting(d') && AllGoThrough(s', d', qs[1..])
    ensures AllGoThrough(s, d, qs)
  {
    hide Exchange, Up, Waiting, GoesThrough, Finishable;
  }

  lemma AnswerFits(s: Host, d: Device, q: Request)
    requires Waiting(d) && Finishable(s, q)
    ensures Sound(d) && |q.r| <= AGGREGATE
  {
  }
}
