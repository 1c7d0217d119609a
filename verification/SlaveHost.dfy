/** The slave board as a USB host: the `level` machine of control transfers, the device
    address and the events it forwards (host_event_handlers.c, hcd_rp2040.c).

    The functions on `Host` specify the methods of `HostController`.  Of endpoints other than
    the control endpoint, their slots and the transactions started on them are modelled. */
module SlaveHost {
  import opened Common
  import opened TransferEngine
  import HostPool

  datatype Setup = Setup(bmRequestType: byte, bRequest: byte, wValue: u16, wIndex: u16, wLength: u16)

  predicate ToHost(su: Setup) { su.bmRequestType >= 0x80 }

  /** The 8 bytes of a setup packet as they travel. */
  function SetupBytes(su: Setup): seq<byte> {
    [su.bmRequestType, su.bRequest, Low(su.wValue), High(su.wValue), Low(su.wIndex), High(su.wIndex),
     Low(su.wLength), High(su.wLength)]
  }

  function SetupOf(b: seq<byte>): Setup
    requires |b| >= 8
  {
    Setup(b[0], b[1], Word(b[2], b[3]), Word(b[4], b[5]), Word(b[6], b[7]))
  }

  const SET_ADDRESS: byte := 5
  const NEW_ADDRESS: byte := 7
  const CHG_ADDR_SETUP := Setup(0, SET_ADDRESS, NEW_ADDRESS, 0, 0)

  /** Completion codes of a transfer: success, and `4` for a part of one. */
  datatype Outcome = Success | Partial

  /** A transaction started on the bus, or a bus reset. */
  datatype Txn =
    | SetupTxn(addr: byte, packet: Setup)
    | DataTxn(addr: byte, epAddr: byte)
    | BusReset

  datatype Host = Host(
    level: nat, devAddr: byte, setup: Setup, bugger: seq<byte>,
    epx: Ep,
    active: nat,        // slot of active_ep; 0 is the control endpoint
    sendSetup: bool,    // the SEND_SETUP bit of sie_ctrl
    tx: seq<Message>, bus: seq<Txn>, pool: HostPool.Pool,
    halted: bool)       // an assertion failed or error() was called

  // ---------------------------------------------------------------- hcd_rp2040.c

  /** `_hw_endpoint_init` of the control endpoint. */
  function Init(e: Ep, devAddr: byte, epAddr: byte): Ep {
    e.(epAddr := epAddr, devAddr := devAddr, rx := epAddr >= 0x80, nextPid := Number(epAddr) == 0)
  }

  function SetupSend(s: Host, devAddr: byte): Host {
    s.(epx := Init(s.epx, devAddr, 0x00).(remaining := 8, active := true),
       active := 0, sendSetup := true, bus := s.bus + [SetupTxn(devAddr, s.setup)])
  }

  function Flipped(s: Host, devAddr: byte, epAddr: byte): Ep {
    if epAddr != s.epx.epAddr then Init(s.epx, devAddr, epAddr) else s.epx
  }

  /** A data transaction on the endpoint opened for an address; the control endpoint answers to
      both directions of number 0.  Its transfer is the engine's; for others only the start is
      modelled.  The model stops where a packet would not fit its memory. */
  function EdptXfer(s: Host, devAddr: byte, epAddr: byte, buffer: UserBuf, len: u16): Host {
    match HostPool.Lookup(s.pool.eps, epAddr)
    case None => s.(halted := true)
    case Some(slot) =>
      var started := s.(active := slot, sendSetup := false, bus := s.bus + [DataTxn(devAddr, epAddr)]);
      var e := Flipped(s, devAddr, epAddr);
      if slot > 0 then started
      else if !CanArm(Loaded(e, buffer, len), Slave) then s.(halted := true)
      else started.(epx := XferStart(e, buffer, len, Slave))
  }

  function SendEvent(s: Host, len: nat, epAddr: byte, flags: u16): Host
    requires flags < 0x8000
  {
    if len == 0 then s.(tx := s.tx + [Message(IS_PACKET + flags, [epAddr])])
    else if len >= |s.bugger| then s.(halted := true)
    else
      var b := s.bugger[len := epAddr];
      s.(bugger := b, tx := s.tx + [Message(IS_PACKET + flags, b[..len + 1])])
  }

  function ReadLength(su: Setup): u16 { if ToHost(su) then su.wLength else 64 }

  /** `hcd_event_xfer_complete` */
  function Event(s: Host, devAddr: byte, epAddr: byte, xferred: nat, outcome: Outcome): Host {
    if epAddr % 128 == 0 then
      if s.level == 0 then
        if xferred != 0 || outcome != Success then s.(halted := true)
        else EdptXfer(s.(level := 1), devAddr, 0x80, Mem(s.bugger, 0), ReadLength(s.setup))
      else if s.level == 1 then
        if outcome == Success then
          var s1 := s.(level := 2);
          var s2 := if ToHost(s.setup) then EdptXfer(s1, devAddr, 0x00, Null, 0) else s1;
          SendEvent(s2, xferred, epAddr, LAST_PACKET + SETUP_DATA)
        else
          SendEvent(EdptXfer(s, devAddr, 0x80, Mem(s.bugger, 0), ReadLength(s.setup)), xferred, epAddr, SETUP_DATA)
      else s
    else SendEvent(s, xferred, epAddr, if outcome == Success then LAST_PACKET else FIRST_PACKET)
  }

  /** `hw_xfer_complete` on the control endpoint. */
  function XferComplete(s: Host, outcome: Outcome): Host {
    var s1 := if outcome == Success then s.(epx := ResetTransfer(s.epx)) else s;
    Event(s1, s.epx.devAddr, s.epx.epAddr, s.epx.xferred, outcome)
  }

  /** The controller reports that the setup packet has gone out. */
  function TransComplete(s: Host): Host {
    if s.sendSetup then XferComplete(s, Success) else s
  }

  /** The armed control buffer when a packet has come for it; its user pointer is to `bugger`. */
  function Delivered(s: Host, data: seq<byte>): Ep
    requires CanComplete(s.epx, data)
  {
    Complete(if s.epx.user.Mem? then s.epx.(user := Mem(s.bugger, s.epx.user.pos)) else s.epx, data)
  }

  predicate CanDeliver(s: Host, data: seq<byte>) {
    && s.active == 0 && !s.sendSetup && s.epx.ctrl.avail
    && CanComplete(s.epx, data) && CanContinue(Delivered(s, data), Slave)
  }

  /** Buffer status of the control endpoint. */
  function ControlBuffer(s: Host, data: seq<byte>): Host
    requires CanDeliver(s, data)
  {
    var (e, done) := Continue(Delivered(s, data), Slave);
    var s1 := s.(epx := e, bugger := if s.epx.user.Mem? then e.user.bytes else s.bugger);
    XferComplete(s1, if done then Success else Partial)
  }

  // ---------------------------------------------------------------- slavework

  function Slavework(s: Host, m: Message): Host {
    var kind := m.flag % DEBUG_PRINT_AS_HEX;
    if kind == RESET_USB then s.(devAddr := 0, bus := s.bus + [BusReset])
    else if kind == EDPT_OPEN then OpenEndpoint(s, m.payload)
    else if kind == SETUP_DATA then
      if |m.payload| < 8 then s.(halted := true)
      else SetupSend(s.(setup := SetupOf(m.payload), level := 0), s.devAddr)
    else if kind == USB_DATA then StartData(s, m.payload)
    else if kind == CHG_ADDR then
      SetupSend(s.(setup := CHG_ADDR_SETUP, level := 0), s.devAddr).(devAddr := NEW_ADDRESS)
    else if kind == CHG_EPX_PACKETSIZE then
      if |m.payload| != 1 then s.(halted := true) else s.(epx := s.epx.(mps := m.payload[0]))
    else if kind == 0 then s
    else s.(halted := true)
  }

  /** Opening the endpoint of a descriptor, for any endpoint but 0. */
  function OpenEndpoint(s: Host, desc: seq<byte>): Host {
    if |desc| < HostPool.DESC_LENGTH || Number(desc[2]) == 0 || s.pool.halted then s.(halted := true)
    else
      var p := HostPool.Open(s.pool, HostPool.DescOf(desc), s.devAddr);
      s.(pool := p, halted := s.halted || p.halted)
  }

  /** A data transfer on a non-control endpoint, whose address is the last payload byte. */
  function StartData(s: Host, payload: seq<byte>): Host {
    var n := |payload| - 1;
    if n < 0 || n > |s.bugger| || n > 0xffff || Number(payload[n]) == 0 then s.(halted := true)
    else
      var b := payload[..n] + s.bugger[n..];
      EdptXfer(s.(level := 3, bugger := b), s.devAddr, payload[n], Mem(b, 0), n)
  }

  // ---------------------------------------------------------------- in the host's terms

  /** What a control transaction arms: all the bytes asked for, with DATA1 if the direction has
      changed and the PID that was due if not. */
  lemma EdptXferSays(s: Host, devAddr: byte, epAddr: byte, buffer: UserBuf, len: u16)
    requires Number(epAddr) == 0 && len < LEN_LIMIT && CanArm(Loaded(Flipped(s, devAddr, epAddr), buffer, len), Slave)
    ensures var s' := EdptXfer(s, devAddr, epAddr, buffer, len);
      && s'.bus == s.bus + [DataTxn(devAddr, epAddr)] && s'.active == 0 && !s'.sendSetup && s'.halted == s.halted
      && s'.epx.epAddr == epAddr && s'.epx.xferred == 0
      && s'.epx.ctrl == BufCtrl(len, true, !Flipped(s, devAddr, epAddr).rx, s'.epx.remaining == 0,
                                epAddr != s.epx.epAddr || s.epx.nextPid, false, false)
  {
    hide HostFlips, Write, Peek;
  }

  /** The first bytes of the buffer, and the endpoint they came from. */
  function Carried(s: Host, len: nat, epAddr: byte): seq<byte>
    requires len <= |s.bugger|
  {
    s.bugger[..len] + [epAddr]
  }

  predicate HasRoom(s: Host, len: nat) { 0 < len ==> len < |s.bugger| }

  /** The message for the master: the first `len` bytes of the buffer, then the endpoint.  The
      model halts where the code would write past the buffer. */
  lemma SendEventSays(s: Host, len: nat, epAddr: byte, flags: u16)
    requires flags < 0x8000
    ensures var s' := SendEvent(s, len, epAddr, flags);
      && s'.level == s.level && s'.bus == s.bus && s'.epx == s.epx
      && (if HasRoom(s, len)
          then s'.halted == s.halted && s'.tx == s.tx + [Message(IS_PACKET + flags, Carried(s, len, epAddr))]
          else s'.halted)
  {
    if 0 < len < |s.bugger| {
      assert s.bugger[len := epAddr][..len + 1] == s.bugger[..len] + [epAddr];
    } else {
      assert s.bugger[..0] + [epAddr] == [epAddr];
    }
  }

  /** A packet of the control endpoint's data stage is forwarded, with the flag of the last one
      if it ends the transfer, and the level goes up only then. */
  lemma DataStageSays(s: Host, devAddr: byte, epAddr: byte, xferred: nat, outcome: Outcome)
    requires !s.halted && epAddr % 128 == 0 && s.level == 1
    ensures var s' := Event(s, devAddr, epAddr, xferred, outcome);
      !s'.halted ==>
        && s'.level == (if outcome == Success then 2 else 1) && HasRoom(s, xferred)
        && s'.tx == s.tx + [Message(IS_PACKET + SETUP_DATA + (if outcome == Success then LAST_PACKET else 0),
                                    Carried(s, xferred, epAddr))]
  {
    var s1, read := s.(level := 2), ReadLength(s.setup);
    XferKeepsRest(s1, devAddr, 0x00, Null, 0);
    XferKeepsRest(s, devAddr, 0x80, Mem(s.bugger, 0), read);
    hide EdptXfer, ReadLength;
    if outcome == Success {
      SendEventSays(if ToHost(s.setup) then EdptXfer(s1, devAddr, 0x00, Null, 0) else s1,
                    xferred, epAddr, LAST_PACKET + SETUP_DATA);
    } else {
      SendEventSays(EdptXfer(s, devAddr, 0x80, Mem(s.bugger, 0), read), xferred, epAddr, SETUP_DATA);
    }
    hide SendEvent, ToHost;
  }

  /** The level machine: how many messages an event adds, which flags they carry, and when the
      level goes up. */
  lemma EventSays(s: Host, devAddr: byte, epAddr: byte, xferred: nat, outcome: Outcome)
    requires !s.halted
    ensures var s' := Event(s, devAddr, epAddr, xferred, outcome);
      && (epAddr % 128 == 0 && s.level == 0 && !s'.halted ==> s'.level == 1 && s'.tx == s.tx)
      && (epAddr % 128 == 0 && s.level == 1 && !s'.halted ==>
            && s'.level == (if outcome == Success then 2 else 1) && HasRoom(s, xferred)
            && s'.tx == s.tx + [Message(if outcome == Success then 0x0502 else 0x0102,
                                        Carried(s, xferred, epAddr))])
      && (epAddr % 128 == 0 && s.level > 1 ==> s' == s)
      && (epAddr % 128 != 0 ==> s'.level == s.level && s'.bus == s.bus)
      && (epAddr % 128 != 0 && !s'.halted ==>
            && HasRoom(s, xferred)
            && s'.tx == s.tx + [Message(if outcome == Success then 0x0500 else 0x0300,
                                        Carried(s, xferred, epAddr))])
  {
    if epAddr % 128 != 0 {
      SendEventSays(s, xferred, epAddr, if outcome == Success then LAST_PACKET else FIRST_PACKET);
      hide SendEvent, EdptXfer;
    } else if s.level == 1 {
      DataStageSays(s, devAddr, epAddr, xferred, outcome);
      hide Event;
    } else if s.level == 0 {
      XferKeepsRest(s.(level := 1), devAddr, 0x80, Mem(s.bugger, 0), ReadLength(s.setup));
      hide EdptXfer, SendEvent;
    }
  }

  /** A request that tells the device to take an address: SET_ADDRESS of section 9.4.6 of the USB 2.0
      specification, to the device and without data. */
  predicate TellsAddress(su: Setup, addr: byte) {
    && su.bmRequestType == 0 && su.bRequest == 5 && su.wIndex == 0 && su.wLength == 0
    && su.wValue == addr && 1 <= addr <= 127
  }

  /** An address change goes to the device at its present address, and tells it to take the very
      address that the slave uses from then on. */
  lemma ChangeSays(s: Host, m: Message)
    requires m.flag % DEBUG_PRINT_AS_HEX == CHG_ADDR
    ensures var s' := Slavework(s, m);
      && |s'.bus| == |s.bus| + 1 && s.bus <= s'.bus
      && var t := s'.bus[|s.bus|];
        t.SetupTxn? && t.addr == s.devAddr && t.packet == s'.setup && TellsAddress(t.packet, s'.devAddr)
  {
  }

  /** From `s` to `s'` one slot has been set up as the descriptor says, and nothing else changed. */
  ghost predicate OpenedAs(s: Host, s': Host, desc: seq<byte>)
    requires |desc| >= 7
  {
    exists k: nat :: HostPool.TakesSlot(s.pool.eps, k)
      && HostPool.SlotOf(s'.pool.eps[k], k, desc, s.devAddr, !s.pool.eps[k].configured)
      && s' == s.(pool := s.pool.(eps := s.pool.eps[k := s'.pool.eps[k]]))
  }

  /** What an endpoint descriptor from the master does: exactly an openable one sets up a slot as its
      bytes say. */
  lemma OpenSays(s: Host, m: Message)
    requires m.flag % DEBUG_PRINT_AS_HEX == EDPT_OPEN && !s.halted && !s.pool.halted
    ensures Slavework(s, m).halted <==> !HostPool.Openable(m.payload)
    ensures HostPool.Openable(m.payload) ==> OpenedAs(s, Slavework(s, m), m.payload)
  {
    if HostPool.Openable(m.payload) {
      var k := HostPool.FreeFrom(s.pool.eps, 1);
      HostPool.TakesFree(s.pool.eps, 1);
      var s' := Slavework(s, m);
      assert s'.pool.eps == s.pool.eps[k := s'.pool.eps[k]];
      assert HostPool.SlotOf(s'.pool.eps[k], k, m.payload, s.devAddr, !s.pool.eps[k].configured);
    }
  }

  /** Data for the device: its bytes are put at the start of the buffer, which the transfer on the
      endpoint named by the last byte of the message starts from. */
  lemma DataSays(s: Host, m: Message)
    requires m.flag % DEBUG_PRINT_AS_HEX == USB_DATA && !s.halted && !Slavework(s, m).halted
    ensures var s', n := Slavework(s, m), |m.payload| - 1;
      && 0 <= n <= |s.bugger| && |s'.bugger| == |s.bugger|
      && s'.bugger[..n] == m.payload[..n] && s'.bugger[n..] == s.bugger[n..]
      && s'.bus == s.bus + [DataTxn(s.devAddr, m.payload[n])] && s'.level == 3
  {
    hide HostPool.Lookup, XferStart, CanArm;
  }

  lemma XferKeepsRest(s: Host, devAddr: byte, epAddr: byte, buffer: UserBuf, len: u16)
    ensures var s' := EdptXfer(s, devAddr, epAddr, buffer, len);
      s'.level == s.level && s'.tx == s.tx && s'.bugger == s.bugger && s'.setup == s.setup && s'.devAddr == s.devAddr
      && s'.pool == s.pool && (s.halted ==> s'.halted)
  {
    hide XferStart, CanArm, HostPool.Lookup;
  }

  // ---------------------------------------------------------------- the code

  class HostController {
    var level: nat
    var devAddr: byte
    var setupPacket: Setup
    var bugger: seq<byte>
    var active: nat
    var sendSetup: bool
    var tx: seq<Message>
    var bus: seq<Txn>
    var halted: bool
    const epx: HwEndpoint
    const pool: HostPool.EndpointPool

    predicate Valid() { epx.role == Slave && pool.Valid() }

    ghost function View(): Host
      requires Valid()
      reads this, epx, pool, pool.eps
    {
      Host(level, devAddr, setupPacket, bugger, epx.View(), active, sendSetup, tx, bus, pool.View(), halted)
    }

    constructor ()
      ensures Valid() && fresh(epx) && fresh(pool) && fresh(pool.eps)
      ensures !halted && level == 0 && devAddr == 0 && active == 0 && !sendSetup
      ensures |bugger| == 1000 && tx == [] && bus == []
      ensures pool.View() == HostPool.Pool(HostPool.Blank(HostPool.SLOTS), false)
      ensures epx.View().mps == 0 && epx.View().xferred == 0 && |epx.View().hw| == 64
    {
      level, devAddr, setupPacket, bugger := 0, 0, Setup(0, 0, 0, 0, 0), Zeros(1000);
      active, sendSetup, tx, bus, halted := 0, false, [], [], false;
      epx := new HwEndpoint(Slave, 0, false, false, 0, 64);
      pool := new HostPool.EndpointPool();
    }

    method InitEpx(dev: byte, epAddr: byte)
      modifies epx
      ensures epx.View() == Init(old(epx.View()), dev, epAddr)
    {
      epx.epAddr := epAddr;
      epx.devAddr := dev;
      epx.rx := epAddr >= 0x80;
      epx.nextPid := epAddr % 16 == 0;
    }

    /** The setup packet goes to `dev`, whose next data packet is a DATA1. */
    method HcdSetupSend(dev: byte)
      requires Valid()
      modifies this, epx
      ensures View() == SetupSend(old(View()), dev)
      ensures bus == old(bus) + [SetupTxn(dev, setupPacket)] && sendSetup && active == 0
      ensures epx.nextPid && !epx.rx && epx.devAddr == dev && epx.epAddr == 0x00
      ensures epx.remainingLen == 8 && epx.active
    {
      InitEpx(dev, 0x00);
      active := 0;
      epx.remainingLen := 8;
      epx.active := true;
      bus := bus + [SetupTxn(dev, setupPacket)];
      sendSetup := true;
    }

    /** An address without an endpoint trips an assertion; else its transaction starts, and on
        the control endpoint all the bytes asked for are armed, with DATA1 after a change of
        direction. */
    method HcdEdptXfer(dev: byte, epAddr: byte, buffer: UserBuf, buflen: u16)
      requires Valid() && !halted
      modifies this, epx
      ensures Valid() && View() == EdptXfer(old(View()), dev, epAddr, buffer, buflen)
      ensures HostPool.Lookup(pool.eps[..], epAddr).None? ==> halted && bus == old(bus)
      ensures !halted ==> bus == old(bus) + [DataTxn(dev, epAddr)] && !sendSetup
      ensures !halted && Number(epAddr) == 0 && buflen < LEN_LIMIT ==>
        && active == 0 && epx.epAddr == epAddr && epx.xferredLen == 0
        && epx.bufferControl.avail && epx.bufferControl.len == buflen
        && epx.bufferControl.data1 == (epAddr != old(epx.epAddr) || old(epx.nextPid))
    {
      hide HostPool.Lookup, XferStart, Init, Loaded, CanArm;
      var slot := pool.GetDevEp(epAddr);
      if slot.None? {
        halted := true;
        return;
      }
      if slot.value > 0 {
        active := slot.value;
      } else {
        var flip := epAddr != epx.epAddr;
        var e := if flip then Init(epx.View(), dev, epAddr) else epx.View();
        if !CanArm(Loaded(e, buffer, buflen), Slave) {
          halted := true;
          return;
        }
        active := 0;
        if flip {
          InitEpx(dev, epAddr);
        }
        epx.Start(buffer, buflen);
      }
      bus := bus + [DataTxn(dev, epAddr)];
      sendSetup := false;
      if slot.value == 0 && buflen < LEN_LIMIT {
        EdptXferSays(old(View()), dev, epAddr, buffer, buflen);
      }
    }

    /** One message with the packet and then its endpoint. */
    method SendEventToMaster(len: nat, epAddr: byte, flags: u16)
      requires Valid() && flags < 0x8000
      modifies this
      ensures View() == SendEvent(old(View()), len, epAddr, flags)
      ensures len < |old(bugger)| ==>
        tx == old(tx) + [Message(IS_PACKET + flags, old(bugger)[..len] + [epAddr])]
    {
      SendEventSays(View(), len, epAddr, flags);
      if len == 0 {
        tx := tx + [Message(IS_PACKET + flags, [epAddr])];
      } else if len >= |bugger| {
        halted := true;
      } else {
        bugger := bugger[len := epAddr];
        tx := tx + [Message(IS_PACKET + flags, bugger[..len + 1])];
      }
    }

    /** A control transfer goes from its setup to its data and, with the packet that ends it, to
        its status stage.  Data packets, and any packet of another endpoint, are forwarded. */
    method HcdEventXferComplete(dev: byte, epAddr: byte, xferred: nat, outcome: Outcome)
      requires Valid() && !halted
      modifies this, epx
      ensures Valid() && View() == Event(old(View()), dev, epAddr, xferred, outcome)
      ensures !halted && epAddr % 128 == 0 && old(level) == 0 ==> level == 1 && tx == old(tx)
      ensures !halted && epAddr % 128 == 0 && old(level) == 1 ==>
        level == (if outcome == Success then 2 else 1) && |tx| == |old(tx)| + 1
      ensures epAddr % 128 == 0 && old(level) > 1 ==> View() == old(View())
      ensures epAddr % 128 != 0 ==> level == old(level) && bus == old(bus)
      ensures !halted && (epAddr % 128 != 0 || old(level) == 1) ==>
        && |tx| > 0 && HasRoom(old(View()), xferred)
        && tx[|tx| - 1].payload == Carried(old(View()), xferred, epAddr)
    {
      hide EdptXfer, SendEvent, Carried, ToHost, ReadLength, HostPool.Lookup, Number;
      EventSays(View(), dev, epAddr, xferred, outcome);
      if epAddr % 128 == 0 {
        if level == 0 {
          if xferred != 0 || outcome != Success {
            halted := true;
            return;
          }
          level := 1;
          XferKeepsRest(View(), dev, 0x80, Mem(bugger, 0), ReadLength(setupPacket));
          HcdEdptXfer(dev, 0x80, Mem(bugger, 0), ReadLength(setupPacket));
        } else if level == 1 {
          var last := 0;
          if outcome == Success {
            level := 2;
            last := LAST_PACKET;
            if ToHost(setupPacket) {
              XferKeepsRest(View(), dev, 0x00, Null, 0);
              HcdEdptXfer(dev, 0x00, Null, 0);
            }
          } else {
            XferKeepsRest(View(), dev, 0x80, Mem(bugger, 0), ReadLength(setupPacket));
            HcdEdptXfer(dev, 0x80, Mem(bugger, 0), ReadLength(setupPacket));
          }
          SendEventToMaster(xferred, epAddr, last + SETUP_DATA);
        }
      } else {
        SendEventToMaster(xferred, epAddr, if outcome == Success then LAST_PACKET else FIRST_PACKET);
      }
    }

    method HwXferComplete(outcome: Outcome)
      requires Valid() && !halted
      modifies this, epx
      ensures Valid() && View() == XferComplete(old(View()), outcome)
    {
      hide Event;
      var dev, epAddr, xferred := epx.devAddr, epx.epAddr, epx.xferredLen;
      if outcome == Success {
        epx.ResetTransferNew();
      }
      HcdEventXferComplete(dev, epAddr, xferred, outcome);
    }

    method HwTransComplete()
      requires Valid() && !halted
      modifies this, epx
      ensures Valid() && View() == TransComplete(old(View()))
      ensures !old(sendSetup) ==> View() == old(View())
    {
      hide XferComplete;
      if sendSetup {
        HwXferComplete(Success);
      }
    }

    /** The control endpoint's buffer status, once the controller has delivered `data`. */
    method HandleBuffStatus(data: seq<byte>)
      requires Valid() && !halted && CanDeliver(View(), data)
      modifies this, epx
      ensures Valid() && View() == ControlBuffer(old(View()), data)
    {
      hide XferComplete, Continue, CanContinue, Write;
      KeepsMemory(Delivered(View(), data), Slave);
      var points := epx.userBuf.Mem?;
      var e := if points then epx.View().(user := Mem(bugger, epx.userBuf.pos)) else epx.View();
      e := Complete(e, data);
      epx.userBuf, epx.hwDataBuf, epx.bufferControl := e.user, e.hw, e.ctrl;
      var done := epx.XferContinue();
      if points {
        bugger := epx.userBuf.bytes;
      }
      HwXferComplete(if done then Success else Partial);
    }

    /** The data of a message for the device goes to the endpoint named by its last byte. */
    method StartDataTransfer(payload: seq<byte>)
      requires Valid() && !halted
      modifies this, epx
      ensures Valid() && View() == StartData(old(View()), payload)
      ensures !halted ==>
        && |payload| > 0 && level == 3 && active > 0 && devAddr == old(devAddr)
        && |bugger| == |old(bugger)| >= |payload| - 1
        && bugger[..|payload| - 1] == payload[..|payload| - 1]
        && bugger[|payload| - 1..] == old(bugger)[|payload| - 1..]
        && bus == old(bus) + [DataTxn(devAddr, payload[|payload| - 1])]
    {
      hide XferStart, CanArm;
      var n := |payload| - 1;
      if n < 0 || n > |bugger| || n > 0xffff || Number(payload[n]) == 0 {
        halted := true;
        return;
      }
      level := 3;
      bugger := payload[..n] + bugger[n..];
      HcdEdptXfer(devAddr, payload[n], Mem(bugger, 0), n);
    }

    /** What each kind of message does. */
    method Work(m: Message)
      requires Valid() && !halted
      modifies this, epx, pool, pool.eps
      ensures Valid() && View() == Slavework(old(View()), m)
      ensures m.flag % DEBUG_PRINT_AS_HEX == CHG_ADDR ==>
        && bus == old(bus) + [SetupTxn(old(devAddr), setupPacket)] && TellsAddress(setupPacket, devAddr) && level == 0
      ensures m.flag % DEBUG_PRINT_AS_HEX == SETUP_DATA && |m.payload| >= 8 ==>
        bus == old(bus) + [SetupTxn(devAddr, SetupOf(m.payload))] && devAddr == old(devAddr) && level == 0
      ensures m.flag % DEBUG_PRINT_AS_HEX == RESET_USB ==> devAddr == 0 && bus == old(bus) + [BusReset]
      ensures m.flag % DEBUG_PRINT_AS_HEX == USB_DATA && !halted ==>
        && |m.payload| > 0 && level == 3 && active > 0 && |bugger| >= |m.payload| - 1
        && bugger[..|m.payload| - 1] == m.payload[..|m.payload| - 1]
        && bus == old(bus) + [DataTxn(devAddr, m.payload[|m.payload| - 1])]
      ensures m.flag % 0x8000 !in {0, 0x1, 0x2, 0x4, 0x8, 0x20, 0x40} ==> halted
      ensures m.flag % 0x8000 == 0 ==> View() == old(View())
      ensures m.flag % 0x8000 == 0x40 ==>
        if |m.payload| == 1 then !halted && epx.wMaxPacketSize == m.payload[0] else halted
      ensures m.flag % DEBUG_PRINT_AS_HEX == EDPT_OPEN && !old(pool.halted) ==>
        && (halted <==> !HostPool.Openable(m.payload))
        && (!halted ==> OpenedAs(old(View()), View(), m.payload))
    {
      hide StartData, SetupOf, HostPool.Open, HostPool.DescOf, Number, HostPool.Openable, OpenedAs;
      if m.flag % DEBUG_PRINT_AS_HEX == EDPT_OPEN && !pool.halted { OpenSays(View(), m); }
      var kind := m.flag % DEBUG_PRINT_AS_HEX;
      if kind == RESET_USB {
        devAddr := 0;
        bus := bus + [BusReset];
      } else if kind == EDPT_OPEN {
        if |m.payload| < HostPool.DESC_LENGTH || Number(m.payload[2]) == 0 || pool.halted {
          halted := true;
          return;
        }
        pool.HcdEdptOpen(m.payload, devAddr);
        halted := pool.halted;
      } else if kind == SETUP_DATA {
        if |m.payload| < 8 {
          halted := true;
          return;
        }
        setupPacket := SetupOf(m.payload);
        level := 0;
        HcdSetupSend(devAddr);
      } else if kind == USB_DATA {
        StartDataTransfer(m.payload);
      } else if kind == CHG_ADDR {
        setupPacket := CHG_ADDR_SETUP;
        level := 0;
        HcdSetupSend(devAddr);
        devAddr := NEW_ADDRESS;
      } else if kind == CHG_EPX_PACKETSIZE {
        if |m.payload| != 1 {
          halted := true;
          return;
        }
        epx.wMaxPacketSize := m.payload[0];
      } else if kind != 0 {
        halted := true;
      }
    }
  }
}
