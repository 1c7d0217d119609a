/** Control transfers across both boards: what the device answers is what the master handles. */
module EndToEnd {
  import opened Common
  import opened TransferEngine
  import opened SlaveHost
  import HostPool
  import opened ControlRead
  import HostAddress
  import opened MasterDevice
  import opened DescriptorWalk
  import DpramAllocator

  /** The master after `n` calls of its slave event handler. */
  function Poll(d: Device, n: nat): (d': Device)
    requires Sound(d)
    ensures Sound(d')
  {
    if n == 0 then d else SlaveEvent(Poll(d, n - 1))
  }

  /** The aggregator holds `got` and waits for more. */
  predicate Collecting(d: Device, got: seq<byte>) {
    && Sound(d) && d.reading && !d.halted && d.len == |got| && d.aggregate[..d.len] == got
  }

  lemma IsLast(p: seq<byte>, last: bool)
    ensures var m := Packet(p, last);
      && Has(m.flag, IS_PACKET) && Has(m.flag, SETUP_DATA) && Has(m.flag, LAST_PACKET) == last
      && m.flag != DEBUG_PRINT_AS_STRING && m.payload == p + [0x80]
  {
  }

  /** What is armed for the PC when these packets come: each of them, in order. */
  function Armed(ps: seq<seq<byte>>): (armed: seq<(byte, seq<byte>)>)
    ensures |armed| == |ps| && forall i :: 0 <= i < |ps| ==> armed[i] == (0x80, ps[i])
  {
    if ps == [] then [] else Armed(ps[..|ps| - 1]) + [(0x80, ps[|ps| - 1])]
  }

  /** The status packet of a read, from the PC. */
  function StatusOf(su: Setup): seq<(byte, seq<byte>)> {
    if ToHost(su) then [(0x00, [])] else []
  }

  /** A packet from the slave joins the aggregate and is armed for the PC; the last one has the
      response handled, and the status of a read armed. */
  lemma TakesPacket(d: Device, got: seq<byte>, p: seq<byte>, last: bool, rest: seq<Message>)
    requires Collecting(d, got) && |got| + |p| <= AGGREGATE
    requires d.rx == [Packet(p, last)] + rest
    ensures var d' := SlaveEvent(d);
      && d'.rx == rest && d'.setup == d.setup && d'.address == d.address
      && (!last ==> Collecting(d', got + p) && d'.handled == d.handled && d'.tx == d.tx && d'.mem == d.mem)
      && (!last ==> d'.armed == d.armed + [(0x80, p)] && d'.mps == d.mps)
      && (last ==> d'.handled == d.handled + [got + p])
      && (last && !d'.halted ==> !d'.reading && d'.armed == d.armed + [(0x80, p)] + StatusOf(d.setup))
      && (last && d'.halted ==> d'.reading && d'.armed == d.armed + [(0x80, p)])
  {
    IsLast(p, last);
    assert SkipStrings(d.rx) == d.rx;
    var m := Packet(p, last);
    assert m.payload[..|p|] == p && d.rx[1..] == rest;
    RegisteringSays(d.(rx := rest), p);
    hide Packet, Has, SkipStrings, Registering, WalkFrom, ToHost;
  }

  lemma {:induction false} Collects(d: Device, ps: seq<seq<byte>>, tail: seq<Message>)
    requires Collecting(d, []) && |Concat(ps)| <= AGGREGATE && d.rx == Packets(ps) + tail
    ensures var d' := Poll(d, |ps|);
      && Collecting(d', Concat(ps)) && d'.rx == tail && d'.handled == d.handled
      && d'.setup == d.setup && d'.address == d.address && d'.tx == d.tx && d'.mem == d.mem
      && d'.armed == d.armed + Armed(ps) && d'.mps == d.mps
    decreases |ps|
  {
    assert Sound(d);
    hide SlaveEvent, Collecting;
    if ps == [] {
      assert d.armed + [] == d.armed;
    } else {
      var n := |ps| - 1;
      var front, p := ps[..n], ps[n];
      assert ps == front + [p];
      ConcatSnoc(front, p);
      assert d.rx == Packets(front) + ([Packet(p, false)] + tail);
      Collects(d, front, [Packet(p, false)] + tail);
      TakesPacket(Poll(d, n), Concat(front), p, false, tail);
      Regroups(d.armed, Armed(front), [(0x80, p)]);
    }
  }

  /** The messages a finished request leaves for the master. */
  function Forwarded(ps: seq<seq<byte>>): seq<Message>
    requires ps != []
  {
    Packets(ps[..|ps| - 1]) + [Packet(ps[|ps| - 1], true)]
  }

  /** At every moment the aggregator holds the packets taken so far, and nothing is handled
      before the last one. */
  lemma AggregatesPrefix(d: Device, ps: seq<seq<byte>>, i: nat)
    requires Collecting(d, []) && ps != [] && |Concat(ps)| <= AGGREGATE && d.rx == Forwarded(ps)
    requires i < |ps|
    ensures Collecting(Poll(d, i), Concat(ps[..i])) && Poll(d, i).handled == d.handled
  {
    ConcatFits(ps, i);
    ForwardedFrom(ps, i);
    var tail := Forwarded(ps)[i..];
    hide Packets, Forwarded, Collecting, Poll;
    Collects(d, ps[..i], tail);
  }

  lemma ForwardedFrom(ps: seq<seq<byte>>, i: nat)
    requires i < |ps|
    ensures Forwarded(ps) == Packets(ps[..i]) + Forwarded(ps)[i..]
  {
    var front := ps[..|ps| - 1];
    PacketsSplit(front, i);
    assert front[..i] == ps[..i];
    assert Forwarded(ps)[..i] == Packets(front)[..i];
    assert Forwarded(ps) == Forwarded(ps)[..i] + Forwarded(ps)[i..];
  }

  /** The master just before it takes the last of some forwarded packets. */
  lemma BeforeLast(d: Device, ps: seq<seq<byte>>)
    requires Collecting(d, []) && ps != [] && |Concat(ps)| <= AGGREGATE && d.rx == Forwarded(ps)
    ensures var n := |ps| - 1;
      var d1 := Poll(d, n);
      && Collecting(d1, Concat(ps[..n])) && d1.rx == [Packet(ps[n], true)]
      && Concat(ps) == Concat(ps[..n]) + ps[n]
      && d1.tx == d.tx && d1.setup == d.setup && d1.mem == d.mem && d1.handled == d.handled && d1.address == d.address
      && d1.armed == d.armed + Armed(ps[..n]) && d1.mps == d.mps
      && Poll(d, |ps|) == SlaveEvent(d1) && Poll(d, |ps| + 1) == SlaveEvent(SlaveEvent(d1))
  {
    var n := |ps| - 1;
    assert ps == ps[..n] + [ps[n]];
    ConcatSnoc(ps[..n], ps[n]);
    assert Sound(d);
    PollsOnce(d, n);
    PollsOnce(d, n + 1);
    hide Packets, Collecting, SlaveEvent, Poll;
    Collects(d, ps[..n], [Packet(ps[n], true)]);
  }

  lemma PollsOnce(d: Device, n: nat)
    requires Sound(d)
    ensures Poll(d, n + 1) == SlaveEvent(Poll(d, n))
  {
    hide SlaveEvent;
  }

  /** Whatever packets the slave forwarded, the master handles exactly their concatenation,
      once, offers exactly these packets to the PC, in order, with the status of a read behind
      them, and is then ready for the next request. */
  lemma Aggregates(d: Device, ps: seq<seq<byte>>)
    requires Collecting(d, []) && ps != [] && |Concat(ps)| <= AGGREGATE && d.rx == Forwarded(ps)
    ensures var d' := Poll(d, |ps|);
      && d'.handled == d.handled + [Concat(ps)] && d'.rx == []
      && d'.setup == d.setup && d'.address == d.address
      && (d'.halted ==> d'.reading && d'.armed == d.armed + Armed(ps))
      && (!d'.halted ==>
            && d'.armed == d.armed + Armed(ps) + StatusOf(d.setup)
            && !d'.reading && Collecting(Poll(d, |ps| + 1), [])
            && Poll(d, |ps| + 1) == d'.(len := 0, reading := true))
  {
    BeforeLast(d, ps);
    var n := |ps| - 1;
    hide Poll, Collecting, SlaveEvent, Concat, Forwarded, Packet;
    var d1 := Poll(d, n);
    assert d1.rx == [Packet(ps[n], true)] + [];
    TakesPacket(d1, Concat(ps[..n]), ps[n], true, []);
    Regroups(d.armed, Armed(ps[..n]), [(0x80, ps[n])]);
    var d2 := SlaveEvent(d1);
    if !d2.halted { StartsOver(d2); }
  }

  lemma StartsOver(d: Device)
    requires Sound(d) && !d.reading && !d.halted
    ensures SlaveEvent(d) == d.(len := 0, reading := true) && Collecting(SlaveEvent(d), [])
  {
    assert d.aggregate[..0] == [];
  }

  lemma PacketsSplit(ps: seq<seq<byte>>, i: nat)
    requires i <= |ps|
    ensures Packets(ps)[..i] == Packets(ps[..i])
  {
  }

  lemma ConcatFits(ps: seq<seq<byte>>, i: nat)
    requires i <= |ps|
    ensures |Concat(ps[..i])| <= |Concat(ps)|
  {
    if i > 0 {
      assert ps[..i][1..] == ps[1..][..i - 1];
      ConcatFits(ps[1..], i - 1);
    }
  }

  /** The master forwards the setup packet: neither an address change nor one of the two
      requests that it answers itself. */
  predicate Forwarding(su: Setup) {
    && su.bRequest != SET_ADDRESS
    && !(su.bRequest == 0x6 && su.wValue == 0x0600)
    && !(su.bmRequestType == 0x21 && su.bRequest == 0x9)
  }

  lemma Forwards(d: Device, su: Setup, got: seq<byte>)
    requires Forwarding(su) && Collecting(d, got)
    ensures var d' := SetupReceived(d, su);
      && d'.tx == d.tx + [SetupMessage(su)] && d' == d.(setup := su, tx := d'.tx) && Collecting(d', got)
  {
  }

  /** End to end: for every request from the PC of less than 1024 bytes and every answer to it
      that the slave can see the end of, the master handles exactly the device's answer, once,
      while it still has that request, and has offered it to the PC packet by packet. */
  lemma ReadEndToEnd(s: Host, d: Device, su: Setup, r: seq<byte>)
    requires Ready(s) && ToHost(su) && Forwarding(su) && su.wLength < LEN_LIMIT && s.epx.mps > 0 && |r| <= su.wLength
    requires !Unfinishable(|r|, s.epx.mps, su.wLength)
    requires Collecting(d, []) && d.rx == []
    ensures var d0 := SetupReceived(d, su);
      && |d0.tx| == |d.tx| + 1 && d.tx <= d0.tx
      && var ps := Respond(r, s.epx.mps, su.wLength);
      && var s0 := TransComplete(Slavework(s, d0.tx[|d.tx|]));
      && Deliver(s0, ps).Some?
      && var s' := Deliver(s0, ps).value;
      && s.tx <= s'.tx
      && var d' := Poll(d0.(rx := s'.tx[|s.tx|..]), |s'.tx| - |s.tx|);
      && d'.handled == d.handled + [r] && d'.rx == [] && d'.setup == su
      && (!d'.halted ==> d'.armed == d.armed + Armed(ps) + [(0x00, [])] && Concat(ps) == r)
  {
    ReadOnSlave(s, su, r);
    var ps := Respond(r, s.epx.mps, su.wLength);
    Forwards(d, su, []);
    var d0 := SetupReceived(d, su);
    assert Asked(s, su) == TransComplete(Slavework(s, d0.tx[|d.tx|]));
    hide Deliver, Asked, Respond, Reading, TransComplete, Slavework, SetupReceived, SetupMessage, Collecting;
    var s' := Deliver(Asked(s, su), ps).value;
    FinishedTx(s', su, s.devAddr, s.tx, ps);
    hide Answered;
    assert s'.tx[|s.tx|..] == Forwarded(ps);
    CollectsStill(d0, Forwarded(ps));
    Aggregates(d0.(rx := Forwarded(ps)), ps);
  }

  lemma CollectsStill(d: Device, rx: seq<Message>)
    requires Collecting(d, [])
    ensures Collecting(d.(rx := rx), [])
  {
  }

  lemma FinishedTx(s: Host, su: Setup, addr: byte, tx: seq<Message>, ps: seq<seq<byte>>)
    requires Answered(s, su, addr, tx, ps, true)
    ensures ps != [] && s.tx == tx + Forwarded(ps)
  {
    assert tx + Packets(ps[..|ps| - 1]) + [Packet(ps[|ps| - 1], true)] == tx + Forwarded(ps);
  }

  /** The last packet of a response: the aggregate as it is when the master acts on it. */
  lemma TakesLast(d: Device, got: seq<byte>, p: seq<byte>)
    requires Collecting(d, got) && |got| + |p| <= AGGREGATE && d.rx == [Packet(p, true)]
    ensures var d1 := Registering(d.(rx := []), p);
      && Sound(d1) && !d1.halted && d1.aggregate[..d1.len] == got + p && d1.len == |got| + |p|
      && d1.tx == d.tx && d1.setup == d.setup && d1.mps == d.mps
      && SlaveEvent(d).tx == HandleResponse(d1).tx && SlaveEvent(d).mps == HandleResponse(d1).mps
      && SlaveEvent(d).aggregate == HandleResponse(d1).aggregate && SlaveEvent(d).mem == HandleResponse(d1).mem
      && SlaveEvent(d).halted == HandleResponse(d1).halted && d1.mem == d.mem
  {
    IsLast(p, true);
    assert SkipStrings(d.rx) == d.rx;
    var m := Packet(p, true);
    assert m.payload[..|p|] == p;
    hide HandleResponse, Packet, Has, SkipStrings, ToHost;
  }

  /** The answer to a request for the device descriptor has both boards agree on the packet
      size that it names. */
  lemma PacketSizeEndToEnd(s: Host, d: Device, ps: seq<seq<byte>>)
    requires Collecting(d, []) && ps != [] && 8 <= |Concat(ps)| <= AGGREGATE && d.rx == Forwarded(ps)
    requires d.setup.bRequest == 6 && d.setup.wValue == 0x0100   // GET_DESCRIPTOR of the device
    ensures var d' := Poll(d, |ps|);
      var size := Concat(ps)[7];
      && d'.mps == size && d'.tx == d.tx + [Message(CHG_EPX_PACKETSIZE + DEBUG_PRINT_AS_HEX, [size])]
      && Slavework(s, d'.tx[|d.tx|]) == s.(epx := s.epx.(mps := size))
  {
    BeforeLast(d, ps);
    var n := |ps| - 1;
    var d0 := Poll(d, n);
    hide Poll, Forwarded, Concat, Collecting, Packet, SlaveEvent;
    TakesLast(d0, Concat(ps[..n]), ps[n]);
    var d1 := Registering(d0.(rx := []), ps[n]);
    hide Registering;
    assert d1.aggregate[7] == d1.aggregate[..d1.len][7] == Concat(ps)[7];
    Learns(d1);
    hide HandleResponse;
    ChangesPacketSize(s, Concat(ps)[7]);
    hide Slavework;
  }

  lemma Learns(d: Device)
    requires Sound(d) && AsksDevice(d.setup)
    ensures var d' := HandleResponse(d);
      && d'.mps == d.aggregate[7]
      && d'.tx == d.tx + [Message(CHG_EPX_PACKETSIZE + DEBUG_PRINT_AS_HEX, [d.aggregate[7]])]
  {
  }

  lemma ChangesPacketSize(s: Host, size: byte)
    ensures Slavework(s, Message(CHG_EPX_PACKETSIZE + DEBUG_PRINT_AS_HEX, [size])) == s.(epx := s.epx.(mps := size))
  {
    assert (CHG_EPX_PACKETSIZE + DEBUG_PRINT_AS_HEX) % DEBUG_PRINT_AS_HEX == CHG_EPX_PACKETSIZE;
  }

  /** The messages added to the master's tx are one for each endpoint, and the `k`th carries the
      `k`th endpoint descriptor: any slave that can open it then has a slot as its bytes say, and any
      other halts. */
  ghost predicate OpenedOnSlave(s: Host, before: seq<Message>, after: seq<Message>, ds: seq<seq<byte>>, k: nat)
    requires WellFormed(ds)
  {
    var es := Endpoints(ds, 0);
    && before <= after && |after| == |before| + |es|
    && (k < |es| && !s.halted && !s.pool.halted ==>
          && es[k] < |ds|
          && var s', desc := Slavework(s, after[|before| + k]), ds[es[k]];
            && (s'.halted <==> !HostPool.Openable(desc))
            && (HostPool.Openable(desc) ==> OpenedAs(s, s', desc)))
  }

  /** The answer to a request for a whole configuration: if what its endpoints take fits the
      device's memory, they are all opened in it and the slave opens exactly their descriptors,
      in order and verbatim; if not, the board halts. */
  lemma ConfigurationEndToEnd(s: Host, d: Device, ps: seq<seq<byte>>, ds: seq<seq<byte>>, k: nat)
    requires Collecting(d, []) && ps != [] && |Concat(ps)| <= AGGREGATE && d.rx == Forwarded(ps)
    requires d.setup.wValue == 0x0200 && d.setup.wLength > 9 && d.setup.bRequest != SET_ADDRESS
    requires DpramAllocator.Inv(d.mem) && !d.mem.halted
    requires WellFormed(ds) && Concat(ds) == Concat(ps) && AllDrivable(ds)
    ensures var d' := Poll(d, |ps|);
      && (d'.halted <==> d.mem.next + Demanded(ds, 0) > DpramAllocator.BASE + DpramAllocator.SIZE)
      && (!d'.halted ==>
            && d'.mem == OpenedAll(ds, 0, d.mem) && EndpointsOpened(ds, 0, d.mem, d'.mem)
            && OpenedOnSlave(s, d.tx, d'.tx, ds, k))
  {
    BeforeLast(d, ps);
    var n := |ps| - 1;
    var d0 := Poll(d, n);
    hide Poll, Forwarded, Concat, Collecting, Packet, SlaveEvent, WellFormed, AllDrivable, HandleResponse,
      OpenedOnSlave, Demanded, OpenedAll, EndpointsOpened, DpramAllocator.Inv;
    TakesLast(d0, Concat(ps[..n]), ps[n]);
    var d1 := Registering(d0.(rx := []), ps[n]);
    hide Registering, Slavework;
    Configures(d1);
    OpensAll(s, d1, ds, k);
  }

  lemma OpensAll(s: Host, d: Device, ds: seq<seq<byte>>, k: nat)
    requires Sound(d) && AsksConfiguration(d.setup) && d.setup.bRequest != SET_ADDRESS && !d.halted
    requires DpramAllocator.Inv(d.mem) && !d.mem.halted
    requires WellFormed(ds) && d.aggregate[..d.len] == Concat(ds) && AllDrivable(ds)
    ensures var d' := HandleResponse(d);
      && (d'.halted <==> d.mem.next + Demanded(ds, 0) > DpramAllocator.BASE + DpramAllocator.SIZE)
      && (!d'.halted ==>
            && d'.mem == OpenedAll(ds, 0, d.mem) && EndpointsOpened(ds, 0, d.mem, d'.mem)
            && OpenedOnSlave(s, d.tx, d'.tx, ds, k))
  {
    hide HandleResponse, Slavework, Concat, Endpoints, WellFormed, AllDrivable, WalkFrom, OpenMessages, Opened,
      OpenEndpoint, DrivableIn, Demanded, OpenedAll, DpramAllocator.Inv, EndpointsOpened, OpenedAs, HostPool.Openable;
    Configures(d);
    FinishesIfHeld(d.aggregate, d.len, ds, d.mem);
    DrivableThere(d.aggregate, d.len, ds);
    WalksDescriptors(d.aggregate, d.len, ds, d.mem, k);
    var es := Endpoints(ds, 0);
    if !HandleResponse(d).halted {
      WalkOpensEndpoints(d.aggregate, d.len, ds, d.mem);
      if k < |es| && !s.halted && !s.pool.halted { OpenSaid(s, ds[es[k]]); }
    }
  }

  lemma Configures(d: Device)
    requires Sound(d) && AsksConfiguration(d.setup) && d.setup.bRequest != SET_ADDRESS && !d.halted
    ensures var w, d' := WalkFrom(d.aggregate, d.len, 0, None, d.mem), HandleResponse(d);
      && d'.aggregate == d.aggregate && d'.halted == (w.end != Finished) && d'.mem == w.mem
      && d'.tx == d.tx + OpenMessages(w.registered)
  {
    hide WalkFrom, OpenMessages;
  }

  lemma OpenSaid(s: Host, desc: seq<byte>)
    requires !s.halted && !s.pool.halted
    ensures var s' := Slavework(s, Message(EDPT_OPEN + DEBUG_PRINT_AS_HEX, desc));
      && (s'.halted <==> !HostPool.Openable(desc))
      && (HostPool.Openable(desc) ==> OpenedAs(s, s', desc))
  {
    hide Slavework, HostPool.Openable, OpenedAs;
    assert (EDPT_OPEN + DEBUG_PRINT_AS_HEX) % DEBUG_PRINT_AS_HEX == EDPT_OPEN;
    OpenSays(s, Message(EDPT_OPEN + DEBUG_PRINT_AS_HEX, desc));
  }

  lemma OpensOnSlave(s: Host, desc: seq<byte>)
    ensures Slavework(s, Message(EDPT_OPEN + DEBUG_PRINT_AS_HEX, desc)) == OpenEndpoint(s, desc)
  {
    assert (EDPT_OPEN + DEBUG_PRINT_AS_HEX) % DEBUG_PRINT_AS_HEX == EDPT_OPEN;
    hide OpenEndpoint;
  }

  /** The answer to a report request for interface 1 has the slave start a transfer of one
      packet's length on endpoint 0x81, if that endpoint has been opened; else the slave halts. */
  lemma ReportEndToEnd(s: Host, d: Device, ps: seq<seq<byte>>)
    requires Collecting(d, []) && ps != [] && |Concat(ps)| <= AGGREGATE && d.rx == Forwarded(ps)
    requires d.setup.wValue == 0x2200 && d.setup.wIndex == 1 && d.setup.bRequest != SET_ADDRESS
    requires |s.bugger| == 1000
    ensures var d' := Poll(d, |ps|);
      && |d'.tx| == |d.tx| + 1 && d.tx <= d'.tx
      && var s' := Slavework(s, d'.tx[|d.tx|]);
      && (HostPool.Lookup(s.pool.eps, 0x81).None? ==> s'.halted)
      && (HostPool.Lookup(s.pool.eps, 0x81).Some? ==>
            && s'.halted == s.halted && s'.bus == s.bus + [DataTxn(s.devAddr, 0x81)]
            && HostPool.Lookup(s.pool.eps, 0x81) == Some(s'.active) && s'.level == 3
            && d'.mps <= |s'.bugger| && s'.bugger[..d'.mps] == Zeros(d'.mps))
  {
    BeforeLast(d, ps);
    var n := |ps| - 1;
    var d0 := Poll(d, n);
    hide Poll, Forwarded, Concat, Collecting, Packet, SlaveEvent, AsksDevice, AsksConfiguration;
    TakesLast(d0, Concat(ps[..n]), ps[n]);
    var d1 := Registering(d0.(rx := []), ps[n]);
    hide Registering;
    Knocks(d1);
    hide HandleResponse;
    StartsReport(s, d1.mps);
    hide Slavework, Knock;
  }

  lemma Knocks(d: Device)
    requires Sound(d) && !d.halted
    requires d.setup.wValue == 0x2200 && d.setup.wIndex == 1 && d.setup.bRequest != SET_ADDRESS
    ensures HandleResponse(d).tx == d.tx + [Knock(0x81, d.mps)] && HandleResponse(d).mps == d.mps
  {
  }

  lemma StartsReport(s: Host, n: byte)
    requires |s.bugger| == 1000
    ensures var s' := Slavework(s, Knock(0x81, n));
      && (HostPool.Lookup(s.pool.eps, 0x81).None? ==> s'.halted)
      && (HostPool.Lookup(s.pool.eps, 0x81).Some? ==>
            && s'.halted == s.halted && s'.bus == s.bus + [DataTxn(s.devAddr, 0x81)]
            && HostPool.Lookup(s.pool.eps, 0x81) == Some(s'.active) && s'.level == 3
            && |s'.bugger| == 1000 && s'.bugger[..n] == Zeros(n))
  {
    hide XferStart, CanArm, HostPool.LookupFrom, HostPool.Open, SetupOf;
    assert (USB_DATA + DEBUG_PRINT_AS_HEX) % DEBUG_PRINT_AS_HEX == USB_DATA;
    assert (Zeros(n) + [0x81])[..n] == Zeros(n);
  }

  /** A SET_ADDRESS from the PC across both boards: the slave changes the device's address with
      setup and status at the old one; only its answer lets the master arm the status packet
      for the PC; and the master's own address changes only when that packet is done. */
  lemma AddressEndToEnd(s: Host, d: Device, a: u16)
    requires Ready(s) && Collecting(d, []) && d.rx == []
    ensures var d1 := SetupReceived(d, Setup(0, SET_ADDRESS, a, 0, 0));
      var s1 := TransComplete(Slavework(s, Message(CHG_ADDR, [])));
      && d1.tx == d.tx + [Message(CHG_ADDR, [])] && d1.armed == d.armed
      && CanDeliver(s1, [])
      && var s2 := ControlBuffer(s1, []);
      && s2.bus == s.bus + [SetupTxn(s.devAddr, s2.setup), DataTxn(s.devAddr, 0x80)]
      && TellsAddress(s2.setup, s2.devAddr)
      && s2.tx == s.tx + Forwarded([[]])
      && var d2 := Poll(d1.(rx := Forwarded([[]])), 1);
      && d2.armed == d.armed + [(0x80, [])] && !d2.halted
      && d2.address == d1.address == d.address
      && Ep0Done(d2, 0x00).address == d.address
      && Ep0Done(d2, 0x80).address == a % 256
  {
    HostAddress.ChangesAddress(s);
    EmptyForward();
    var d1 := SetupReceived(d, Setup(0, SET_ADDRESS, a, 0, 0)).(rx := Forwarded([[]]));
    hide Slavework;
    hide TransComplete;
    hide CanDeliver;
    hide ControlBuffer;
    hide Forwarded;
    TakesEmpty(d1);
  }

  lemma EmptyForward()
    ensures Forwarded([[]]) == [Packet([], true)]
  {
    var none: seq<seq<byte>> := [];
    assert [[]][..0] == none;
  }

  lemma PollsOne(d: Device, m: Message)
    requires Sound(d) && d.reading && d.rx == [m] && m.flag != DEBUG_PRINT_AS_STRING
    ensures Poll(d, 1) == TakePacket(d.(rx := []), m)
  {
    hide TakePacket;
    assert Poll(d, 0) == d && SkipStrings(d.rx) == d.rx;
  }

  /** The empty answer to an address change, taken by the master. */
  lemma TakesEmpty(d: Device)
    requires Collecting(d, []) && d.rx == [Packet([], true)] && d.setup.bRequest == SET_ADDRESS && !ToHost(d.setup)
    ensures var d' := Poll(d, 1);
      && d'.armed == d.armed + [(0x80, [])] && !d'.halted && d'.address == d.address && d'.setup == d.setup
  {
    var m := Packet([], true);
    IsLast([], true);
    hide Has, Packet, Poll, SlaveEvent, SkipStrings, ToHost;
    PollsOne(d, m);
    assert m.payload[..0] == [];
    var d1 := Registering(d.(rx := []), []);
    assert !d1.halted && d1.armed == d.armed + [(0x80, [])];
    hide Registering;
    var d2 := HandleResponse(d1);
    assert !d2.halted && d2.armed == d1.armed && d2.setup == d.setup && d2.address == d.address;
    hide HandleResponse;
  }

  /** A bus reset by the PC across both boards: the master is at address 0 with no endpoint open, and
      the message that it queues has the slave reset its device and go back to address 0, too. */
  lemma ResetEndToEnd(s: Host, d: Device)
    ensures var d' := ResetByHost(d);
      && d'.address == 0 && d'.mem.live == map[] && d'.mem.next == 0x5010_0180
      && |d'.tx| == |d.tx| + 1 && d.tx <= d'.tx
      && Slavework(s, d'.tx[|d.tx|]) == s.(devAddr := 0, bus := s.bus + [BusReset])
  {
  }
}
