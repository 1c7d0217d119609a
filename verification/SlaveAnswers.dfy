/** When the slave sends packets of a control response, over whole runs
    (host_event_handlers.c, hcd_rp2040.c). */
module SlaveAnswers {
  import opened Common
  import opened TransferEngine
  import opened SlaveHost
  import opened ControlRead
  import opened HostAddress
  import HostPool

  /** A request has been taken and its response is not complete. */
  predicate Answering(s: Host) { s.level == 1 || (s.level == 0 && s.sendSetup) }

  /** The message has the slave begin a control transfer. */
  predicate Begins(ev: Ev) { IsKind(ev, SETUP_DATA) || IsKind(ev, CHG_ADDR) }

  /** A message of an endpoint other than the control endpoint. */
  predicate OtherPacket(m: Message) {
    m.payload != [] && Has(m.flag, IS_PACKET) && !Has(m.flag, SETUP_DATA) && m.flag != DEBUG_PRINT_AS_STRING
  }

  predicate Steady(s: Host) {
    && (s.level == 0 && !s.sendSetup ==> !s.epx.ctrl.avail)
    && (s.sendSetup ==> s.level == 0)
    && (s.level == 1 ==> s.epx.epAddr == 0x80 && s.epx.rx && s.epx.xferred == 0 && s.epx.user.Mem?)
    && (s.epx.epAddr == 0x00 || (s.epx.epAddr == 0x80 && s.epx.rx))
    && |s.epx.hw| == 64 && |s.bugger| == 1000
  }

  /** What one event adds to the slave's tx. */
  ghost predicate Adds(s: Host, ev: Ev, s': Host) {
    || (s'.tx == s.tx && (Answering(s') ==> Answering(s) || Begins(ev)))
    || (ev.OtherDone? && (exists m :: s'.tx == s.tx + [m] && OtherPacket(m)) && Answering(s') == Answering(s))
    || (ev.Arrived? && Answering(s)
        && exists p, last :: |p| <= 64 && s'.tx == s.tx + [Packet(p, last)] && (last <==> !Answering(s')))
  }

  lemma StartsRead(s: Host, addr: byte)
    requires |s.epx.hw| == 64 && |s.bugger| == 1000 && s.level == 1 && (s.epx.epAddr == 0x80 ==> s.epx.rx)
    ensures var s' := EdptXfer(s, addr, 0x80, Mem(s.bugger, 0), ReadLength(s.setup));
      && s'.halted == s.halted && !s'.sendSetup && s'.level == 1 && s'.tx == s.tx && s'.setup == s.setup
      && s'.bugger == s.bugger && Steady(s')
  {
    hide HostFlips, CtrlWord;
  }

  lemma StartsStatus(s: Host, addr: byte)
    requires |s.epx.hw| == 64 && |s.bugger| == 1000 && s.level == 2 && !s.sendSetup
    ensures var s' := EdptXfer(s, addr, 0x00, Null, 0);
      && !s'.sendSetup && s'.level == 2 && Steady(s') && s'.tx == s.tx && s'.bugger == s.bugger
  {
    hide HostFlips, CtrlWord;
  }

  lemma SetupOutAdds(s: Host)
    requires Steady(s) && !s.halted
    ensures var s' := TransComplete(s);
      !s'.halted ==> Steady(s') && s'.tx == s.tx && (Answering(s') ==> Answering(s))
  {
    hide EdptXfer, SendEvent;
    if s.sendSetup {
      var s1 := s.(epx := ResetTransfer(s.epx), level := 1);
      StartsRead(s1, s.epx.devAddr);
    }
  }

  /** The engine's view of a packet for a read that is under way. */
  lemma ArrivalSynced(s: Host, p: seq<byte>)
    requires Steady(s) && s.level == 1 && CanDeliver(s, p)
    ensures |p| <= 64
    ensures var e := Continue(Delivered(s, p), Slave).0;
      && e.user.Mem? && |e.user.bytes| == 1000 && e.epAddr == 0x80 && e.rx && |e.hw| == 64
      && e.devAddr == s.epx.devAddr && e.xferred <= 64
  {
    hide HostFlips, CtrlWord;
  }

  lemma FirstArrival(s: Host, p: seq<byte>)
    requires Steady(s) && s.level == 1 && !s.halted && CanDeliver(s, p) && !ControlBuffer(s, p).halted
    ensures var s' := ControlBuffer(s, p);
      Steady(s') && exists q, last :: |q| <= 64 && s'.tx == s.tx + [Packet(q, last)] && (last <==> !Answering(s'))
  {
    ArrivalSynced(s, p);
    var (e, done) := Continue(Delivered(s, p), Slave);
    hide Continue, Delivered, CanDeliver, CanContinue, CanComplete;
    var n, b := e.xferred, e.user.bytes;
    if done {
      var s1 := s.(epx := ResetTransfer(e), bugger := b, level := 2);
      var s2 := if ToHost(s.setup) then EdptXfer(s1, s.epx.devAddr, 0x00, Null, 0) else s1;
      StartsStatus(s1, s.epx.devAddr);
      hide EdptXfer;
      Sends(s2, n, 0x80, LAST_PACKET + SETUP_DATA);
      assert ControlBuffer(s, p) == SendEvent(s2, n, 0x80, LAST_PACKET + SETUP_DATA);
      assert ControlBuffer(s, p).tx == s.tx + [Packet(b[..n], true)];
    } else {
      var s1 := s.(epx := e, bugger := b);
      var s2 := EdptXfer(s1, s.epx.devAddr, 0x80, Mem(b, 0), ReadLength(s.setup));
      StartsRead(s1, s.epx.devAddr);
      hide EdptXfer;
      Sends(s2, n, 0x80, SETUP_DATA);
      assert ControlBuffer(s, p) == SendEvent(s2, n, 0x80, SETUP_DATA);
      assert ControlBuffer(s, p).tx == s.tx + [Packet(b[..n], false)];
    }
  }

  lemma Sends(s: Host, n: nat, epAddr: byte, flags: u16)
    requires |s.bugger| == 1000 && n <= 64 && flags < 0x8000 && Steady(s)
    ensures var s' := SendEvent(s, n, epAddr, flags);
      && s'.tx == s.tx + [Message(IS_PACKET + flags, s.bugger[..n] + [epAddr])] && Steady(s')
      && Answering(s') == Answering(s) && s'.halted == s.halted
  {
    SendEventSays(s, n, epAddr, flags);
  }

  lemma ArrivedAdds(s: Host, p: seq<byte>)
    requires Steady(s) && !s.halted && CanDeliver(s, p)
    ensures var s' := ControlBuffer(s, p); !s'.halted ==> Steady(s') && Adds(s, Arrived(p), s')
  {
    if !ControlBuffer(s, p).halted {
      if s.level == 1 {
        FirstArrival(s, p);
      } else {
        LateArrival(s, p);
      }
    }
  }

  /** A packet after the response is complete: nothing is added and nothing more awaited. */
  lemma LateArrival(s: Host, p: seq<byte>)
    requires Steady(s) && s.level != 1 && CanDeliver(s, p)
    ensures var s' := ControlBuffer(s, p);
      !s'.halted ==> Steady(s') && s'.tx == s.tx && Answering(s') == Answering(s)
  {
    LateMemory(s, p);
    hide EdptXfer, SendEvent, Continue, Delivered, CanContinue, CanComplete;
  }

  lemma LateMemory(s: Host, p: seq<byte>)
    requires Steady(s) && CanDeliver(s, p)
    ensures var e := Continue(Delivered(s, p), Slave).0;
      && |e.hw| == 64 && (s.epx.user.Mem? ==> e.user.Mem? && |e.user.bytes| == 1000)
      && e.epAddr == s.epx.epAddr && e.rx == s.epx.rx
  {
    hide HostFlips, CtrlWord;
  }

  lemma OtherAdds(s: Host, epAddr: byte, xferred: nat, outcome: Outcome)
    requires Steady(s) && !s.halted && Number(epAddr) != 0
    ensures var s' := Event(s, s.devAddr, epAddr, xferred, outcome);
      !s'.halted ==> Steady(s') && Adds(s, OtherDone(epAddr, xferred, outcome), s')
  {
    ControlNumber(epAddr);
    var flag := if outcome == Success then LAST_PACKET else FIRST_PACKET;
    var s' := SendEvent(s, xferred, epAddr, flag);
    assert Event(s, s.devAddr, epAddr, xferred, outcome) == s';
    hide EdptXfer, Event;
    if !s'.halted && xferred < |s.bugger| {
      SendEventSays(s, xferred, epAddr, flag);
      var m := Message(IS_PACKET + flag, s.bugger[..xferred] + [epAddr]);
      assert s'.tx == s.tx + [m] && OtherPacket(m);
    }
  }

  lemma MessageAdds(s: Host, m: Message)
    requires Steady(s) && !s.halted
    ensures var s' := Slavework(s, m);
      !s'.halted ==> Steady(s') && s'.tx == s.tx && (Answering(s') ==> Answering(s) || Begins(FromMaster(m)))
  {
    hide HostPool.Open, HostPool.Lookup, SetupOf;
  }

  /** Over all runs: a packet of a response is sent only when the device has answered a request
      that was taken, at most 64 bytes at a time; once the packet marked last is sent, nothing
      more is until the next request; and packets of other endpoints are never taken for one. */
  lemma {:induction false} AnswersWhenAsked(start: Host, evs: seq<Ev>, ev: Ev)
    requires Fresh(start) && |start.epx.hw| == 64 && |start.bugger| == 1000 && start.level == 0
    requires Run(start, evs + [ev]).Some?
    ensures Run(start, evs).Some? && Adds(Run(start, evs).value, ev, Run(start, evs + [ev]).value)
    ensures Steady(Run(start, evs + [ev]).value) && !Run(start, evs + [ev]).value.halted
    decreases |evs|
  {
    assert (evs + [ev])[..|evs|] == evs;
    if evs != [] {
      var before, last := evs[..|evs| - 1], evs[|evs| - 1];
      assert evs == before + [last];
      AnswersWhenAsked(start, before, last);
    }
    var s := Run(start, evs).value;
    hide Steady, Slavework, TransComplete, ControlBuffer, Event, CanDeliver, Answering, Begins;
    match ev
    case FromMaster(m) => MessageAdds(s, m);
    case SetupOut => SetupOutAdds(s);
    case Arrived(p) => ArrivedAdds(s, p);
    case OtherDone(epAddr, xferred, outcome) => OtherAdds(s, epAddr, xferred, outcome);
  }
}
