/** Device addresses over whole runs of the slave (host_event_handlers.c, hcd_rp2040.c). */
module HostAddress {
  import opened Common
  import opened TransferEngine
  import opened SlaveHost
  import opened ControlRead

  /** What core 0 of the slave reacts to. */
  datatype Ev =
    | FromMaster(m: Message)
    | SetupOut                                                   // the setup packet is out
    | Arrived(data: seq<byte>)                                   // control endpoint buffer
    | OtherDone(epAddr: byte, xferred: nat, outcome: Outcome)    // any other endpoint

  predicate CanReact(s: Host, ev: Ev) {
    match ev
    case Arrived(data) => CanDeliver(s, data)
    case OtherDone(epAddr, _, _) => Number(epAddr) != 0
    case _ => true
  }

  function React(s: Host, ev: Ev): Host
    requires CanReact(s, ev)
  {
    match ev
    case FromMaster(m) => Slavework(s, m)
    case SetupOut => TransComplete(s)
    case Arrived(data) => ControlBuffer(s, data)
    case OtherDone(epAddr, xferred, outcome) => Event(s, s.devAddr, epAddr, xferred, outcome)
  }

  /** The state after a run that never halts. */
  function Run(start: Host, evs: seq<Ev>): Option<Host> {
    if evs == [] then Some(start)
    else
      var last := |evs| - 1;
      match Run(start, evs[..last])
      case None => None
      case Some(s) =>
        if CanReact(s, evs[last]) && !React(s, evs[last]).halted then Some(React(s, evs[last])) else None
  }

  predicate IsKind(ev: Ev, kind: u16) {
    ev.FromMaster? && ev.m.flag % DEBUG_PRINT_AS_HEX == kind
  }

  function NextAddress(ev: Ev, addr: byte): byte {
    if IsKind(ev, RESET_USB) then 0 else if IsKind(ev, CHG_ADDR) then NEW_ADDRESS else addr
  }

  /** The setup transaction a message asks for while `addr` is in force. */
  function NewSetup(ev: Ev, addr: byte): seq<Txn> {
    if IsKind(ev, SETUP_DATA) && |ev.m.payload| >= 8 then [SetupTxn(addr, SetupOf(ev.m.payload))]
    else if IsKind(ev, CHG_ADDR) then [SetupTxn(addr, CHG_ADDR_SETUP)]
    else []
  }

  /** The address later setups go to: 7 from an address change until the next reset, else 0. */
  function AddressAfter(evs: seq<Ev>): byte {
    if evs == [] then 0 else NextAddress(evs[|evs| - 1], AddressAfter(evs[..|evs| - 1]))
  }

  /** The setup transactions a run asks for, each to the address in force before its message,
      so that the address change itself still goes to the old one. */
  function SetupsAsked(evs: seq<Ev>): seq<Txn> {
    if evs == [] then []
    else
      var before := evs[..|evs| - 1];
      SetupsAsked(before) + NewSetup(evs[|evs| - 1], AddressAfter(before))
  }

  function Setups(bus: seq<Txn>): seq<Txn> {
    if bus == [] then []
    else
      var last := |bus| - 1;
      Setups(bus[..last]) + (if bus[last].SetupTxn? then [bus[last]] else [])
  }

  /** The address of the latest setup transaction. */
  function LastSetup(bus: seq<Txn>): Option<byte> {
    if bus == [] then None
    else
      var last := |bus| - 1;
      if bus[last].SetupTxn? then Some(bus[last].addr) else LastSetup(bus[..last])
  }

  /** Every data or status transaction of a control transfer goes to the address of the setup
      transaction it follows. */
  predicate SameAddress(bus: seq<Txn>) {
    bus == [] ||
    var last := |bus| - 1;
      && SameAddress(bus[..last])
      && (bus[last].DataTxn? && Number(bus[last].epAddr) == 0 ==> LastSetup(bus[..last]) == Some(bus[last].addr))
  }

  lemma Snoc(bus: seq<Txn>, t: Txn)
    ensures Setups(bus + [t]) == Setups(bus) + (if t.SetupTxn? then [t] else [])
    ensures LastSetup(bus + [t]) == if t.SetupTxn? then Some(t.addr) else LastSetup(bus)
    ensures SameAddress(bus + [t]) ==
      (SameAddress(bus) && (t.DataTxn? && Number(t.epAddr) == 0 ==> LastSetup(bus) == Some(t.addr)))
  {
    assert (bus + [t])[..|bus|] == bus;
  }

  predicate HostInv(s: Host) {
    && SameAddress(s.bus)
    && (match LastSetup(s.bus)
        case None => !s.sendSetup && !s.epx.ctrl.avail && s.epx.epAddr % 128 == 0
        case Some(addr) => addr == s.epx.devAddr && s.epx.epAddr % 128 == 0)
  }

  /** `s'` keeps what `s` says about addresses and asks for no new setup. */
  predicate Kept(s: Host, s': Host) {
    HostInv(s') && Setups(s'.bus) == Setups(s.bus) && s'.devAddr == s.devAddr
  }

  /** Starting a control data transaction with the endpoint's own address. */
  lemma XferKeeps(s: Host, epAddr: byte, buffer: UserBuf, len: u16)
    requires HostInv(s) && LastSetup(s.bus).Some? && epAddr % 128 == 0
    ensures Kept(s, EdptXfer(s, s.epx.devAddr, epAddr, buffer, len))
  {
    Snoc(s.bus, DataTxn(s.epx.devAddr, epAddr));
  }

  lemma SendKeeps(s: Host, len: nat, epAddr: byte, flags: u16)
    requires HostInv(s) && flags < 0x8000
    ensures Kept(s, SendEvent(s, len, epAddr, flags))
  {
  }

  lemma EventKeeps(s: Host, epAddr: byte, xferred: nat, outcome: Outcome)
    requires HostInv(s) && LastSetup(s.bus).Some?
    ensures Kept(s, Event(s, s.epx.devAddr, epAddr, xferred, outcome))
  {
    var addr, read := s.epx.devAddr, Mem(s.bugger, 0);
    if epAddr % 128 != 0 {
      SendKeeps(s, xferred, epAddr, if outcome == Success then LAST_PACKET else FIRST_PACKET);
    } else if s.level == 0 {
      XferKeeps(s.(level := 1), 0x80, read, ReadLength(s.setup));
    } else if s.level == 1 {
      var s1 := s.(level := 2);
      XferKeeps(s1, 0x00, Null, 0);
      XferKeeps(s, 0x80, read, ReadLength(s.setup));
      hide EdptXfer;
      var s2 := if ToHost(s.setup) then EdptXfer(s1, addr, 0x00, Null, 0) else s1;
      SendKeeps(s2, xferred, epAddr, LAST_PACKET + SETUP_DATA);
      SendKeeps(EdptXfer(s, addr, 0x80, read, ReadLength(s.setup)), xferred, epAddr, SETUP_DATA);
      hide SendEvent;
    }
  }

  lemma CompleteKeeps(s: Host, outcome: Outcome)
    requires HostInv(s) && LastSetup(s.bus).Some?
    ensures Kept(s, XferComplete(s, outcome))
  {
    var s0 := if outcome == Success then s.(epx := ResetTransfer(s.epx)) else s;
    EventKeeps(s0, s.epx.epAddr, s.epx.xferred, outcome);
    hide Event;
  }

  lemma SetupKeeps(s: Host, su: Setup)
    requires HostInv(s)
    ensures var s' := SetupSend(s.(setup := su, level := 0), s.devAddr);
      && HostInv(s') && Setups(s'.bus) == Setups(s.bus) + [SetupTxn(s.devAddr, su)] && s'.devAddr == s.devAddr
  {
    Snoc(s.bus, SetupTxn(s.devAddr, su));
  }

  lemma ResetKeeps(s: Host)
    requires HostInv(s)
    ensures var s' := s.(devAddr := 0, bus := s.bus + [BusReset]);
      HostInv(s') && Setups(s'.bus) == Setups(s.bus)
  {
    Snoc(s.bus, BusReset);
  }

  lemma DataKeeps(s: Host, payload: seq<byte>)
    requires HostInv(s)
    ensures Kept(s, StartData(s, payload))
  {
    if payload != [] {
      Snoc(s.bus, DataTxn(s.devAddr, payload[|payload| - 1]));
    }
  }

  /** What a message from the master does to the address and to the setups asked for. */
  lemma WorkKeeps(s: Host, m: Message)
    requires HostInv(s)
    ensures HostInv(Slavework(s, m))
    ensures Setups(Slavework(s, m).bus) == Setups(s.bus) + NewSetup(FromMaster(m), s.devAddr)
    ensures Slavework(s, m).devAddr == NextAddress(FromMaster(m), s.devAddr)
  {
    hide SetupSend;
    hide SetupOf;
    hide StartData;
    hide SameAddress;
    hide LastSetup;
    hide Setups;
    ResetKeeps(s);
    SetupKeeps(s, CHG_ADDR_SETUP);
    DataKeeps(s, m.payload);
    if |m.payload| >= 8 {
      SetupKeeps(s, SetupOf(m.payload));
    }
  }

  lemma SetupOutKeeps(s: Host)
    requires HostInv(s)
    ensures Kept(s, TransComplete(s))
  {
    if s.sendSetup { CompleteKeeps(s, Success); }
    hide XferComplete;
  }

  lemma ControlNumber(epAddr: byte)
    ensures epAddr % 128 == 0 ==> Number(epAddr) == 0
  {
    if epAddr % 128 == 0 {
      assert epAddr == 0 || epAddr == 128;
    }
  }

  lemma OtherKeeps(s: Host, epAddr: byte, xferred: nat, outcome: Outcome)
    requires HostInv(s) && Number(epAddr) != 0
    ensures Kept(s, Event(s, s.devAddr, epAddr, xferred, outcome))
  {
    ControlNumber(epAddr);
    hide HostInv, Setups, Number, EdptXfer, SendEvent;
    SendKeeps(s, xferred, epAddr, if outcome == Success then LAST_PACKET else FIRST_PACKET);
  }

  lemma StepKeeps(s: Host, ev: Ev)
    requires HostInv(s) && CanReact(s, ev)
    ensures HostInv(React(s, ev))
    ensures Setups(React(s, ev).bus) == Setups(s.bus) + NewSetup(ev, s.devAddr)
    ensures React(s, ev).devAddr == NextAddress(ev, s.devAddr)
  {
    hide HostInv, Setups, Event, Slavework, TransComplete, ControlBuffer, CanDeliver, Number;
    match ev
    case FromMaster(m) => WorkKeeps(s, m);
    case SetupOut => SetupOutKeeps(s);
    case Arrived(data) => ArrivalKeeps(s, data);
    case OtherDone(epAddr, xferred, outcome) => OtherKeeps(s, epAddr, xferred, outcome);
  }

  lemma ArrivalKeeps(s: Host, data: seq<byte>)
    requires HostInv(s) && CanDeliver(s, data)
    ensures Kept(s, ControlBuffer(s, data))
  {
    var (e, done) := Continue(Delivered(s, data), Slave);
    var s1 := s.(epx := e, bugger := if s.epx.user.Mem? then e.user.bytes else s.bugger);
    assert e.devAddr == s.epx.devAddr && e.epAddr == s.epx.epAddr;
    assert HostInv(s1) && LastSetup(s1.bus).Some?;
    CompleteKeeps(s1, if done then Success else Partial);
    hide XferComplete;
  }

  /** A slave that has just been initialised. */
  predicate Fresh(s: Host) {
    !s.halted && s.devAddr == 0 && s.bus == [] && !s.sendSetup && !s.epx.ctrl.avail && s.epx.epAddr == 0
  }

  /** SET_ADDRESS over every run: setups go to the address in force when they were asked for
      (the address change to the old one, later ones to 7 until a reset), and each transfer
      stays at the address of its setup, so the change's status stage is at the old one too. */
  lemma {:induction false} AddressesOnTheBus(start: Host, evs: seq<Ev>)
    requires Fresh(start) && Run(start, evs).Some?
    ensures var s := Run(start, evs).value;
      && HostInv(s) && SameAddress(s.bus)
      && Setups(s.bus) == SetupsAsked(evs)
      && s.devAddr == AddressAfter(evs)
    decreases |evs|
  {
    if evs != [] {
      var last := |evs| - 1;
      AddressesOnTheBus(start, evs[..last]);
      StepKeeps(Run(start, evs[..last]).value, evs[last]);
      hide React;
      hide CanReact;
      hide HostInv;
    }
  }

  /** The packet of the latest setup transaction. */
  function LatestPacket(bus: seq<Txn>): Option<Setup> {
    if bus == [] then None
    else
      var last := |bus| - 1;
      if bus[last].SetupTxn? then Some(bus[last].packet) else LatestPacket(bus[..last])
  }

  /** The address that the device has last been told on the bus, by the setup packet of an address
      change, since it was reset. */
  function AddressTold(start: Host, evs: seq<Ev>): byte
    requires Run(start, evs).Some?
  {
    if evs == [] then 0
    else
      var ev := evs[|evs| - 1];
      if IsKind(ev, RESET_USB) then 0
      else if IsKind(ev, CHG_ADDR) then
        match LatestPacket(Run(start, evs).value.bus)
        case None => 0
        case Some(su) => su.wValue % 256
      else AddressTold(start, evs[..|evs| - 1])
  }

  lemma LatestSnoc(bus: seq<Txn>, t: Txn)
    ensures LatestPacket(bus + [t]) == if t.SetupTxn? then Some(t.packet) else LatestPacket(bus)
  {
    assert (bus + [t])[..|bus|] == bus;
  }

  lemma ChangeTells(s: Host, m: Message)
    requires IsKind(FromMaster(m), CHG_ADDR)
    ensures var s' := Slavework(s, m);
      && s'.bus == s.bus + [SetupTxn(s.devAddr, s'.setup)] && LatestPacket(s'.bus) == Some(s'.setup)
      && TellsAddress(s'.setup, s'.devAddr)
  {
    hide Slavework, LatestPacket;
    ChangeSays(s, m);
    var s' := Slavework(s, m);
    assert s'.bus == s.bus + [s'.bus[|s.bus|]];
    LatestSnoc(s.bus, s'.bus[|s.bus|]);
  }

  /** The slave uses the address that it has told the device. */
  lemma {:induction false} UsesAddressTold(start: Host, evs: seq<Ev>)
    requires Fresh(start) && Run(start, evs).Some?
    ensures Run(start, evs).value.devAddr == AddressTold(start, evs)
    decreases |evs|
  {
    if evs != [] {
      var before, ev := evs[..|evs| - 1], evs[|evs| - 1];
      UsesAddressTold(start, before);
      AddressesOnTheBus(start, before);
      StepKeeps(Run(start, before).value, ev);
      if IsKind(ev, CHG_ADDR) { ChangeTells(Run(start, before).value, ev.m); }
      hide HostInv, Slavework, CanReact, TransComplete, ControlBuffer, Event, LatestPacket;
    }
  }

  /** Over all runs, for each event: a setup packet forwarded by the master goes to the address that
      the device was told last, byte by byte as it came; an address change goes there too, and is a
      SET_ADDRESS without data for the address that later setups go to; nothing else sends a setup. */
  lemma SetupsFollowAddressTold(start: Host, evs: seq<Ev>)
    requires Fresh(start) && Run(start, evs).Some? && evs != []
    ensures var before, ev := evs[..|evs| - 1], evs[|evs| - 1];
      && Run(start, before).Some?
      && var s, s' := Run(start, before).value, Run(start, evs).value;
        && (IsKind(ev, SETUP_DATA) ==>
              && |ev.m.payload| >= 8 && SetupBytes(s'.setup) == ev.m.payload[..8]
              && Setups(s'.bus) == Setups(s.bus) + [SetupTxn(AddressTold(start, before), s'.setup)])
        && (IsKind(ev, CHG_ADDR) ==>
              && TellsAddress(s'.setup, AddressTold(start, evs))
              && Setups(s'.bus) == Setups(s.bus) + [SetupTxn(AddressTold(start, before), s'.setup)])
        && (!IsKind(ev, SETUP_DATA) && !IsKind(ev, CHG_ADDR) ==> Setups(s'.bus) == Setups(s.bus))
  {
    var before, ev := evs[..|evs| - 1], evs[|evs| - 1];
    var s := Run(start, before).value;
    UsesAddressTold(start, before);
    UsesAddressTold(start, evs);
    AddressesOnTheBus(start, before);
    StepKeeps(s, ev);
    if IsKind(ev, CHG_ADDR) {
      ChangeTells(s, ev.m);
      Snoc(s.bus, SetupTxn(s.devAddr, React(s, ev).setup));
    }
    if IsKind(ev, SETUP_DATA) { ForwardsBytes(s, ev.m); }
    hide HostInv, Slavework, CanReact, TransComplete, ControlBuffer, Event, AddressTold, Setups,
      SetupBytes, TellsAddress;
  }

  lemma ForwardsBytes(s: Host, m: Message)
    requires IsKind(FromMaster(m), SETUP_DATA) && !Slavework(s, m).halted
    ensures |m.payload| >= 8 && SetupBytes(Slavework(s, m).setup) == m.payload[..8]
    ensures Slavework(s, m).setup == SetupOf(m.payload)
  {
    if |m.payload| >= 8 {
      assert Slavework(s, m).setup == SetupOf(m.payload);
      BytesOfSetup(m.payload);
    }
  }

  /** The address change itself, from a slave at rest. */
  lemma ChangesAddress(s: Host)
    requires Ready(s)
    ensures var s1 := TransComplete(Slavework(s, Message(CHG_ADDR, [])));
      && CanDeliver(s1, [])
      && var s2 := ControlBuffer(s1, []);
      && s2.bus == s.bus + [SetupTxn(s.devAddr, s2.setup), DataTxn(s.devAddr, 0x80)]
      && TellsAddress(s2.setup, s2.devAddr) && Ready(s2) && s2.tx == s.tx + [Packet([], true)]
  {
    Begins(s, CHG_ADDR_SETUP);
    var s1 := TransComplete(SetupSend(s.(setup := CHG_ADDR_SETUP, level := 0), s.devAddr));
    assert TransComplete(Slavework(s, Message(CHG_ADDR, []))) == s1.(devAddr := NEW_ADDRESS);
    Ends(s1.(devAddr := NEW_ADDRESS), CHG_ADDR_SETUP, s.devAddr, s.tx, [], []);
    assert s.tx + Packets([]) == s.tx;
  }
}