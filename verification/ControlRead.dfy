/** Control transfers on the slave, from the setup packet to the messages for the master.

    Completion is detected by a short packet or by a request no longer than one packet; the
    data toggle comes out right because every full packet arms the buffer twice. */
module ControlRead {
  import opened Common
  import opened TransferEngine
  import opened SlaveHost

  /** Re-arming what is left of a request and then the whole of it flips the PID once: the
      packet counts of the two differ by one. */
  lemma ToggleParity(total: nat, m: nat)
    requires 0 < m < total
    ensures HostFlips(total - m, m) != HostFlips(total, m)
  {
    assert (total - 1) / m == (total - m - 1) / m + 1 by {
      var x := total - m - 1;
      DivideSum(x, m);
    }
  }

  lemma DivideSum(x: nat, m: nat)
    requires m > 0
    ensures (x + m) / m == x / m + 1
  {
    assert x == m * (x / m) + x % m;
    assert x + m == m * (x / m + 1) + x % m;
    DivIs(x + m, m, x / m + 1, x % m);
  }

  /** The control endpoint is at rest and the host can start a request of `total` bytes. */
  predicate Ready(s: Host) {
    && !s.halted && s.epx.xferred == 0 && |s.epx.hw| == 64 && |s.bugger| == 1000 && s.epx.mps <= 64
  }

  function Packet(data: seq<byte>, last: bool): Message {
    Message(IS_PACKET + SETUP_DATA + (if last then LAST_PACKET else 0), data + [0x80])
  }

  function Packets(ps: seq<seq<byte>>): (ms: seq<Message>)
    ensures |ms| == |ps| && forall i :: 0 <= i < |ps| ==> ms[i] == Packet(ps[i], false)
  {
    if ps == [] then [] else Packets(ps[..|ps| - 1]) + [Packet(ps[|ps| - 1], false)]
  }

  /** `sent` full packets have come for request `su` to `addr`, and the next is awaited. */
  ghost predicate Reading(s: Host, su: Setup, addr: byte, tx: seq<Message>, sent: seq<seq<byte>>) {
    var total := ReadLength(su);
    && !s.halted && s.level == 1 && s.setup == su && s.active == 0 && !s.sendSetup
    && |s.epx.hw| == 64 && |s.bugger| == 1000 && s.epx.mps <= 64 && total < LEN_LIMIT
    && s.epx.epAddr == 0x80 && s.epx.devAddr == addr && s.epx.rx && s.epx.xferred == 0
    && s.epx.user.Mem? && s.epx.user.pos == 0
    && s.epx.remaining == total - Min(total, s.epx.mps)
    && s.epx.ctrl.len == total && s.epx.ctrl.avail && !s.epx.ctrl.full
    && s.epx.ctrl.data1 == (|sent| % 2 == 0)
    && s.epx.nextPid == (s.epx.ctrl.data1 != HostFlips(total, s.epx.mps))
    && s.tx == tx + Packets(sent)
  }

  /** A packet the device may send: no longer than a packet, nor than was asked for. */
  predicate Acceptable(s: Host, p: seq<byte>) {
    |p| <= ReadLength(s.setup) && |p| <= 64 && (s.epx.mps > 0 ==> |p| <= s.epx.mps)
  }

  /** The last packet of a request, as the slave decides it. */
  predicate EndsRequest(p: seq<byte>, total: nat, m: nat) {
    m == 0 || total <= m || |p| < m
  }

  /** The response has been forwarded, and for a read its status stage is armed. */
  ghost predicate Finished(s: Host, su: Setup, addr: byte, tx: seq<Message>) {
    && !s.halted && s.level == 2 && s.setup == su && s.tx == tx
    && |s.epx.hw| == 64 && |s.bugger| == 1000 && s.epx.mps <= 64 && s.epx.xferred == 0 && s.epx.devAddr == addr
    && (ToHost(su) ==>
          && s.active == 0 && !s.sendSetup && s.epx.epAddr == 0x00 && !s.epx.rx
          && s.epx.ctrl == BufCtrl(0, true, true, true, true, false, false))
  }

  /** Setup stage: the request is sent and, once it is out, the first packet asked for, with
      DATA1, from the same address. */
  lemma Begins(s: Host, su: Setup)
    requires Ready(s) && ReadLength(su) < LEN_LIMIT
    ensures var s' := TransComplete(SetupSend(s.(setup := su, level := 0), s.devAddr));
      && Reading(s', su, s.devAddr, s.tx, [])
      && s'.epx.ctrl.len == (if su.bmRequestType >= 0x80 then su.wLength else 64)
      && s'.bus == s.bus + [SetupTxn(s.devAddr, su), DataTxn(s.devAddr, 0x80)]
      && s'.epx.mps == s.epx.mps && s'.devAddr == s.devAddr
  {
    var s1 := SetupSend(s.(setup := su, level := 0), s.devAddr);
    assert s1.epx.rx == false && s1.epx.xferred == 0;
    var s2 := TransComplete(s1);
    assert s.tx + Packets([]) == s.tx;
  }

  /** The packet as the engine has it after synchronising the buffer. */
  lemma Synced(s: Host, su: Setup, addr: byte, tx: seq<Message>, sent: seq<seq<byte>>, p: seq<byte>)
    requires Reading(s, su, addr, tx, sent) && Acceptable(s, p)
    ensures CanComplete(s.epx, p) && CanDeliver(s, p)
    ensures var e := Sync(Delivered(s, p), Slave);
      && e.user.Mem? && |e.user.bytes| == 1000 && e.user.bytes[..|p|] == p && e.user.pos == 0
      && e.xferred == |p| && e.nextPid == s.epx.nextPid && |e.hw| == 64
      && e.epAddr == 0x80 && e.devAddr == addr && e.rx && e.mps == s.epx.mps
      && (e.remaining == 0 <==> EndsRequest(p, ReadLength(su), s.epx.mps))
      && (e.remaining > 0 ==> e.remaining == s.epx.remaining)
  {
    var d := Delivered(s, p);
    assert d.hw[..|p|] == p;
  }

  /** The message made of a packet at the start of the buffer. */
  lemma Forwards(s: Host, p: seq<byte>, flags: u16)
    requires |s.bugger| == 1000 && |p| <= 64 && s.bugger[..|p|] == p && flags < 0x8000
    ensures var s' := SendEvent(s, |p|, 0x80, flags);
      && s' == s.(bugger := s'.bugger, tx := s.tx + [Message(IS_PACKET + flags, p + [0x80])])
      && |s'.bugger| == 1000
  {
    if p == [] {
      assert p + [0x80] == [0x80];
    } else {
      assert s.bugger[|p| := 0x80][..|p| + 1] == p + [0x80];
    }
  }

  /** Arming a read of the whole request with the PID that is due. */
  lemma Restarts(s: Host, su: Setup, addr: byte, pid: bool)
    requires s.epx.epAddr == 0x80 && s.epx.rx && s.epx.nextPid == pid && |s.epx.hw| == 64 && s.epx.mps <= 64
    requires ReadLength(su) < LEN_LIMIT
    ensures var total := ReadLength(su);
      var s' := EdptXfer(s, addr, 0x80, Mem(s.bugger, 0), total);
      && s' == s.(epx := s'.epx, active := 0, sendSetup := false, bus := s.bus + [DataTxn(addr, 0x80)])
      && s'.epx == s.epx.(
           active := true, xferred := 0, user := Mem(s.bugger, 0), remaining := total - Min(total, s.epx.mps),
           nextPid := pid != HostFlips(total, s.epx.mps),
           ctrl := BufCtrl(total, true, false, total == Min(total, s.epx.mps), pid, false, false))
  {
  }

  /** `s'` is `s` with one more packet forwarded and the request restarted with the other PID. */
  ghost predicate Restarted(s: Host, s': Host, su: Setup, addr: byte, p: seq<byte>) {
    && s' == s.(epx := s'.epx, bugger := s'.bugger, tx := s.tx + [Packet(p, false)],
                bus := s.bus + [DataTxn(addr, 0x80)])
    && |s'.bugger| == 1000 && s'.epx.user.Mem? && s'.epx.user.pos == 0 && |s'.epx.hw| == 64
    && s'.epx == s.epx.(
         active := true, user := s'.epx.user, hw := s'.epx.hw,
         nextPid := !s.epx.ctrl.data1 != HostFlips(ReadLength(su), s.epx.mps),
         ctrl := s'.epx.ctrl)
    && s'.epx.ctrl == BufCtrl(ReadLength(su), true, false, s'.epx.ctrl.last, !s.epx.ctrl.data1, false, false)
  }

  /** A packet that does not end the request arms the rest of it, then restarts it. */
  lemma Rearms(s: Host, su: Setup, addr: byte, tx: seq<Message>, sent: seq<seq<byte>>, p: seq<byte>)
    requires Reading(s, su, addr, tx, sent) && Acceptable(s, p)
    requires !EndsRequest(p, ReadLength(su), s.epx.mps)
    ensures CanDeliver(s, p) && Restarted(s, ControlBuffer(s, p), su, addr, p)
  {
    Synced(s, su, addr, tx, sent, p);
    var total, m := ReadLength(su), s.epx.mps;
    ToggleParity(total, m);
    var e1 := HostArm(Sync(Delivered(s, p), Slave));
    assert e1.nextPid == !s.epx.ctrl.data1;
    var s1 := s.(epx := e1, bugger := e1.user.bytes);
    assert ControlBuffer(s, p) == Event(s1, addr, 0x80, |p|, Partial);
    Restarts(s1, su, addr, !s.epx.ctrl.data1);
    var s2 := EdptXfer(s1, addr, 0x80, Mem(s1.bugger, 0), total);
    assert ControlBuffer(s, p) == SendEvent(s2, |p|, 0x80, SETUP_DATA);
    Forwards(s2, p, SETUP_DATA);
  }

  lemma ReadsOn(s: Host, s': Host, su: Setup, addr: byte, tx: seq<Message>, sent: seq<seq<byte>>, p: seq<byte>)
    requires Reading(s, su, addr, tx, sent) && Restarted(s, s', su, addr, p)
    ensures Reading(s', su, addr, tx, sent + [p])
  {
    assert (sent + [p])[..|sent|] == sent;
    assert Packets(sent + [p]) == Packets(sent) + [Packet(p, false)];
  }

  /** ... so it is forwarded, and the next one is awaited with the other PID. */
  lemma Continues(s: Host, su: Setup, addr: byte, tx: seq<Message>, sent: seq<seq<byte>>, p: seq<byte>)
    requires Reading(s, su, addr, tx, sent) && Acceptable(s, p)
    requires !EndsRequest(p, ReadLength(su), s.epx.mps)
    ensures CanDeliver(s, p)
    ensures var s' := ControlBuffer(s, p);
      && Reading(s', su, addr, tx, sent + [p])
      && s'.bus == s.bus + [DataTxn(addr, 0x80)] && s'.epx.mps == s.epx.mps && s'.devAddr == s.devAddr
  {
    Rearms(s, su, addr, tx, sent, p);
    hide ControlBuffer;
    hide CanDeliver;
    ReadsOn(s, ControlBuffer(s, p), su, addr, tx, sent, p);
    hide Reading;
  }

  /** A packet that ends the request is forwarded as the last one. */
  lemma Ends(s: Host, su: Setup, addr: byte, tx: seq<Message>, sent: seq<seq<byte>>, p: seq<byte>)
    requires Reading(s, su, addr, tx, sent) && Acceptable(s, p)
    requires EndsRequest(p, ReadLength(su), s.epx.mps)
    ensures CanDeliver(s, p)
    ensures var s' := ControlBuffer(s, p);
      && Finished(s', su, addr, tx + Packets(sent) + [Packet(p, true)])
      && s'.bus == s.bus + (if ToHost(su) then [DataTxn(addr, 0x00)] else [])
      && s'.epx.mps == s.epx.mps && s'.devAddr == s.devAddr
  {
    Synced(s, su, addr, tx, sent, p);
    var e1 := Sync(Delivered(s, p), Slave);
    var s1 := s.(epx := ResetTransfer(e1), bugger := e1.user.bytes, level := 2);
    var s2 := if ToHost(su) then EdptXfer(s1, addr, 0x00, Null, 0) else s1;
    assert ControlBuffer(s, p) == SendEvent(s2, |p|, 0x80, LAST_PACKET + SETUP_DATA);
    Forwards(s2, p, LAST_PACKET + SETUP_DATA);
    assert s1.bus == s.bus && s1.tx == s.tx;
    assert Finished(s2, su, addr, s.tx);
    hide Packets;
    hide EdptXfer;
    hide SendEvent;
    hide ControlBuffer;
    hide CanDeliver;
  }

  // ---------------------------------------------------------------- whole requests

  /** The slave after the controller has delivered these packets one by one. */
  function Deliver(s: Host, ps: seq<seq<byte>>): Option<Host>
    decreases |ps|
  {
    if ps == [] then Some(s)
    else if CanDeliver(s, ps[0]) then Deliver(ControlBuffer(s, ps[0]), ps[1..])
    else None
  }

  /** The packets with which a device of packet size `m` answers a request for `total` bytes:
      full ones, then a short or empty one unless the answer has exactly the asked length. */
  function Respond(r: seq<byte>, m: nat, total: nat): seq<seq<byte>>
    requires m > 0 && |r| <= total
    decreases |r|
  {
    if |r| < m then [r]
    else if |r| == m == total then [r]
    else [r[..m]] + Respond(r[m..], m, total - m)
  }

  lemma RespondConcat(r: seq<byte>, m: nat, total: nat)
    requires m > 0 && |r| <= total
    ensures Concat(Respond(r, m, total)) == r
    decreases |r|
  {
    if |r| < m || |r| == m == total {
      assert [r][1..] == [];
    } else {
      RespondConcat(r[m..], m, total - m);
      assert ([r[..m]] + Respond(r[m..], m, total - m))[1..] == Respond(r[m..], m, total - m);
    }
  }

  /** `n` bytes are a whole number of packets. */
  predicate Whole(n: nat, m: nat)
    requires m > 0
  {
    n % m == 0
  }

  /** Whether the slave sees the end of an answer of which `n` bytes are still to come, when
      the device may send `left` more of the `total` asked for. */
  predicate SeesEnd(n: nat, m: nat, left: nat, total: nat)
    requires m > 0
  {
    total <= m || n < left || !Whole(n, m)
  }

  lemma SeesEndStep(n: nat, m: nat, left: nat, total: nat)
    requires 0 < m <= n <= left
    ensures SeesEnd(n - m, m, left - m, total) == SeesEnd(n, m, left, total)
  {
    var x := n - m;
    DivideSum(x, m);
    assert x == m * (x / m) + x % m && n == m * (n / m) + n % m;
  }

  lemma SeesEndLast(n: nat, m: nat, left: nat, total: nat)
    requires m > 0 && n <= left <= total && (left == 0 ==> total == 0)
    ensures n < m || total <= m ==> SeesEnd(n, m, left, total)
    ensures n == m == left < total ==> !SeesEnd(n, m, left, total)
  {
    if n == m == left < total {
      SeesEndStep(n, m, left, total);
    }
  }

  lemma AwaitsPid(s: Host, su: Setup, addr: byte, tx: seq<Message>, sent: seq<seq<byte>>)
    requires Reading(s, su, addr, tx, sent)
    ensures s.epx.ctrl.avail && s.epx.ctrl.data1 == (|sent| % 2 == 0) && s.setup == su && s.epx.mps <= 64
  {
  }

  /** Data toggles alternate from DATA1 through the data stage: after any number of full
      packets of a request longer than a packet, the armed buffer carries the PID that is due. */
  lemma {:induction false} TogglesAlternate(
    s: Host, su: Setup, addr: byte, tx: seq<Message>, sent: seq<seq<byte>>, ps: seq<seq<byte>>)
    requires Reading(s, su, addr, tx, sent)
    requires 0 < s.epx.mps < ReadLength(su)
    requires forall p | p in ps :: |p| == s.epx.mps
    ensures Deliver(s, ps).Some?
    ensures var s' := Deliver(s, ps).value;
      && Reading(s', su, addr, tx, sent + ps) && s'.epx.ctrl.avail
      && s'.epx.ctrl.data1 == ((|sent| + |ps|) % 2 == 0)
    decreases |ps|
  {
    hide Reading;
    hide CanDeliver;
    hide ControlBuffer;
    AwaitsPid(s, su, addr, tx, sent);
    if ps == [] {
      assert sent + ps == sent;
    } else {
      assert ps[0] in ps;
      Continues(s, su, addr, tx, sent, ps[0]);
      assert sent + [ps[0]] + ps[1..] == sent + ps;
      TogglesAlternate(ControlBuffer(s, ps[0]), su, addr, tx, sent + [ps[0]], ps[1..]);
    }
  }

  /** What the slave has come to when `ps` has answered the request: the end, with the last
      packet marked, or a read that goes on. */
  ghost predicate Answered(s: Host, su: Setup, addr: byte, tx: seq<Message>, ps: seq<seq<byte>>, ended: bool) {
    if ended then ps != [] && Finished(s, su, addr, tx + Packets(ps[..|ps| - 1]) + [Packet(ps[|ps| - 1], true)])
    else Reading(s, su, addr, tx, ps)
  }

  lemma LastAnswer(s: Host, su: Setup, addr: byte, tx: seq<Message>, sent: seq<seq<byte>>, p: seq<byte>)
    requires Finished(s, su, addr, tx + Packets(sent) + [Packet(p, true)])
    ensures Answered(s, su, addr, tx, sent + [p], true)
  {
    assert (sent + [p])[..|sent|] == sent;
  }

  /** One request's data stage, from the point where `sent` full packets have come. */
  lemma {:induction false} DataStage(
    s: Host, su: Setup, addr: byte, tx: seq<Message>, sent: seq<seq<byte>>, r: seq<byte>, left: nat)
    requires Reading(s, su, addr, tx, sent) && s.epx.mps > 0
    requires |r| <= left <= ReadLength(su) && (left == 0 ==> ReadLength(su) == 0)
    requires left < ReadLength(su) ==> ReadLength(su) > s.epx.mps
    ensures var ps := Respond(r, s.epx.mps, left);
      && Deliver(s, ps).Some?
      && Deliver(s, ps).value.epx.mps == s.epx.mps
      && Answered(Deliver(s, ps).value, su, addr, tx, sent + ps, SeesEnd(|r|, s.epx.mps, left, ReadLength(su)))
    decreases |r|
  {
    hide Reading, Finished, CanDeliver, ControlBuffer, SeesEnd, Whole, ReadLength;
    AwaitsPid(s, su, addr, tx, sent);
    var m, total := s.epx.mps, ReadLength(su);
    SeesEndLast(|r|, m, left, total);
    if |r| < m || total <= m {
      Ends(s, su, addr, tx, sent, r);
      LastAnswer(ControlBuffer(s, r), su, addr, tx, sent, r);
      DeliverOne(s, r);
    } else {
      Continues(s, su, addr, tx, sent, r[..m]);
      SeesEndStep(|r|, m, left, total);
      if |r| == m == left {
        assert r[..m] == r;
        DeliverOne(s, r);
      } else {
        var rest := Respond(r[m..], m, left - m);
        DataStage(ControlBuffer(s, r[..m]), su, addr, tx, sent + [r[..m]], r[m..], left - m);
        assert ([r[..m]] + rest)[1..] == rest;
        assert sent + [r[..m]] + rest == sent + ([r[..m]] + rest);
        hide Answered;
      }
    }
  }

  lemma DeliverOne(s: Host, p: seq<byte>)
    requires CanDeliver(s, p)
    ensures Deliver(s, [p]) == Some(ControlBuffer(s, p))
  {
    assert [p][1..] == [];
    hide CanDeliver;
    hide ControlBuffer;
    assert Deliver(ControlBuffer(s, p), []) == Some(ControlBuffer(s, p));
  }

  lemma SetupRoundTrip(su: Setup)
    ensures |SetupBytes(su)| == 8 && SetupOf(SetupBytes(su)) == su
  {
    WordOfHalves(su.wValue);
    WordOfHalves(su.wIndex);
    WordOfHalves(su.wLength);
  }

  /** The fields of a setup packet by their bytes: section 9.3 of the USB 2.0 specification. */
  lemma BytesOfSetup(b: seq<byte>)
    requires |b| >= 8
    ensures SetupBytes(SetupOf(b)) == b[..8]
    ensures var su := SetupOf(b);
      && su.bmRequestType == b[0] && su.bRequest == b[1]
      && su.wValue == b[2] + (b[3] as int) * 256 && su.wIndex == b[4] + (b[5] as int) * 256
      && su.wLength == b[6] + (b[7] as int) * 256
      && (ToHost(su) <==> b[0] / 128 == 1)
  {
  }

  /** The message in which the master forwards a setup packet. */
  function SetupMessage(su: Setup): Message {
    Message(SETUP_DATA + DEBUG_PRINT_AS_HEX, SetupBytes(su))
  }

  function Asked(s: Host, su: Setup): Host {
    TransComplete(Slavework(s, SetupMessage(su)))
  }

  lemma Requests(s: Host, su: Setup)
    ensures Slavework(s, SetupMessage(su)) == SetupSend(s.(setup := su, level := 0), s.devAddr)
  {
    SetupRoundTrip(su);
    assert (SETUP_DATA + DEBUG_PRINT_AS_HEX) % DEBUG_PRINT_AS_HEX == SETUP_DATA;
    hide SetupSend, SetupOf, SetupBytes;
  }

  lemma AskedReads(s: Host, su: Setup)
    requires Ready(s) && ReadLength(su) < LEN_LIMIT
    ensures Reading(Asked(s, su), su, s.devAddr, s.tx, [])
    ensures Asked(s, su).epx.ctrl.len == (if su.bmRequestType >= 0x80 then su.wLength else 64)
    ensures Asked(s, su).epx.mps == s.epx.mps && Asked(s, su).devAddr == s.devAddr && Asked(s, su).setup == su
    ensures Asked(s, su).bus == s.bus + [SetupTxn(s.devAddr, su), DataTxn(s.devAddr, 0x80)]
  {
    hide Reading, SetupSend, TransComplete, Slavework;
    Requests(s, su);
    Begins(s, su);
  }

  /** The request a device cannot be seen to finish: longer than a packet, answered in full,
      and a whole number of packets. */
  predicate Unfinishable(n: nat, m: nat, total: nat)
    requires m > 0
  {
    total > m && n == total && Whole(total, m)
  }

  /** A control read on the slave, for every answer: the packets forwarded are the answer, and
      the last of them is marked as such, unless and only unless the request is unfinishable;
      then nothing is marked and the slave goes on asking. */
  lemma ReadOnSlave(s: Host, su: Setup, r: seq<byte>)
    requires Ready(s) && ToHost(su) && su.wLength < LEN_LIMIT && s.epx.mps > 0 && |r| <= su.wLength
    ensures var ps := Respond(r, s.epx.mps, su.wLength);
      && Concat(ps) == r
      && Deliver(Asked(s, su), ps).Some?
      && Answered(Deliver(Asked(s, su), ps).value, su, s.devAddr, s.tx, ps,
                  !Unfinishable(|r|, s.epx.mps, su.wLength))
  {
    hide Asked, Reading, Finished, CanDeliver, ControlBuffer, Whole, Respond, Answered;
    AskedReads(s, su);
    RespondConcat(r, s.epx.mps, su.wLength);
    DataStage(Asked(s, su), su, s.devAddr, s.tx, [], r, su.wLength);
    var ps := Respond(r, s.epx.mps, su.wLength);
    assert [] + ps == ps;
    assert SeesEnd(|r|, s.epx.mps, su.wLength, su.wLength) == !Unfinishable(|r|, s.epx.mps, su.wLength);
  }

  /** Before the packet size is known, the first packet ends the request. */
  lemma FirstReadOnSlave(s: Host, su: Setup, p: seq<byte>)
    requires Ready(s) && ToHost(su) && su.wLength < LEN_LIMIT && s.epx.mps == 0
    requires |p| <= su.wLength && |p| <= 64
    ensures Deliver(Asked(s, su), [p]).Some?
    ensures Answered(Deliver(Asked(s, su), [p]).value, su, s.devAddr, s.tx, [p], true)
  {
    AskedReads(s, su);
    hide Asked;
    Ends(Asked(s, su), su, s.devAddr, s.tx, [], p);
    hide Reading;
    hide Finished;
    hide CanDeliver;
    hide ControlBuffer;
    LastAnswer(ControlBuffer(Asked(s, su), p), su, s.devAddr, s.tx, [], p);
    DeliverOne(Asked(s, su), p);
    assert [] + [p] == [p];
  }

  /** A request with its data stage towards the device is answered by the empty status packet. */
  lemma WriteOnSlave(s: Host, su: Setup)
    requires Ready(s) && !ToHost(su)
    ensures Deliver(Asked(s, su), [[]]).Some?
    ensures Answered(Deliver(Asked(s, su), [[]]).value, su, s.devAddr, s.tx, [[]], true)
  {
    AskedReads(s, su);
    hide Asked;
    Ends(Asked(s, su), su, s.devAddr, s.tx, [], []);
    hide Reading;
    hide Finished;
    hide CanDeliver;
    hide ControlBuffer;
    LastAnswer(ControlBuffer(Asked(s, su), []), su, s.devAddr, s.tx, [], []);
    DeliverOne(Asked(s, su), []);
    var none: seq<seq<byte>> := [];
    assert none + [[]] == [[]];
  }

  /** The status stage of a read sends one empty DATA1 packet, and leaves the slave ready for
      the next request with nothing more to forward. */
  lemma StatusStage(s: Host, su: Setup, addr: byte, tx: seq<Message>)
    requires Finished(s, su, addr, tx) && ToHost(su)
    ensures CanDeliver(s, []) && Ready(ControlBuffer(s, [])) && ControlBuffer(s, []).tx == tx
  {
  }

  /** Exactly one of the forwarded messages is marked last, and it is the final one. */
  lemma OneLast(ps: seq<seq<byte>>, i: nat)
    requires ps != [] && i < |ps|
    ensures var ms := Packets(ps[..|ps| - 1]) + [Packet(ps[|ps| - 1], true)];
      && ms[i] == Packet(ps[i], i == |ps| - 1)
      && Has(ms[i].flag, IS_PACKET) && Has(ms[i].flag, SETUP_DATA)
      && (Has(ms[i].flag, LAST_PACKET) <==> i == |ps| - 1)
  {
  }
}
