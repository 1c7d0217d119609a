/** The master board as a USB device: what it does with setup packets from the PC and with the
    packets the slave forwards (device_event_handlers.c, setup_response_aggregator.c). */
module MasterDevice {
  import opened Common
  import opened TransferEngine
  import opened SlaveHost
  import opened ControlRead
  import opened DescriptorWalk
  import DpramAllocator

  const AGGREGATE := 1024

  datatype Device = Device(
    reading: bool, setup: Setup, mps: byte,
    aggregate: seq<byte>, len: nat,
    address: byte,                          // dev_addr_ctrl
    mem: DpramAllocator.Dpram,              // memory of the other endpoints
    rx: seq<Message>, tx: seq<Message>,
    armed: seq<(byte, seq<byte>)>,          // transfers started on endpoint 0
    toDrivers: seq<(byte, seq<byte>)>,      // packets handed to an endpoint's driver
    handled: seq<seq<byte>>,                // what each setup response was, when handled
    halted: bool)

  /** `register_response`: append the packet and forward it to the PC. */
  function Registering(d: Device, payload: seq<byte>): Device {
    if d.len + |payload| > |d.aggregate| then d.(halted := true)
    else d.(aggregate := Write(d.aggregate, d.len, payload), len := d.len + |payload|,
            armed := d.armed + [(0x80, payload)])
  }

  /** The aggregator's fill level is within its buffer. */
  predicate Sound(d: Device) { |d.aggregate| == AGGREGATE && d.len <= AGGREGATE }

  predicate AsksDevice(su: Setup) { su.bRequest == 0x6 && su.wValue == 0x100 }

  predicate AsksConfiguration(su: Setup) { su.wValue == 0x0200 && su.wLength > 9 }

  /** The packet size of the device descriptor just received. */
  function LearnPacketSize(d: Device): Device
    requires |d.aggregate| == AGGREGATE
  {
    if AsksDevice(d.setup)
    then d.(tx := d.tx + [Message(CHG_EPX_PACKETSIZE + DEBUG_PRINT_AS_HEX, [d.aggregate[7]])], mps := d.aggregate[7])
    else d
  }

  /** The endpoints of the configuration just received.  A walk that does not come to the end of
      the response stops the board. */
  function OpenEndpoints(d: Device): Device
    requires |d.aggregate| == AGGREGATE
  {
    if !AsksConfiguration(d.setup) then d
    else
      var w := WalkFrom(d.aggregate, d.len, 0, None, d.mem);
      d.(tx := d.tx + OpenMessages(w.registered), mem := w.mem, halted := d.halted || w.end != Finished)
  }

  /** `knock_on_slave_edpt` */
  function Knock(epAddr: byte, n: nat): Message {
    Message(USB_DATA + DEBUG_PRINT_AS_HEX, Zeros(n) + [epAddr])
  }

  /** `handle_setup_response` */
  function HandleResponse(d: Device): (d': Device)
    requires Sound(d)
    ensures Sound(d')
  {
    var d1 := LearnPacketSize(d.(handled := d.handled + [d.aggregate[..d.len]]));
    if d.setup.bRequest == SET_ADDRESS then d1
    else
      var d2 := OpenEndpoints(d1);
      if !d2.halted && d.setup.wValue == 0x2200 && d.setup.wIndex == 0x01
      then d2.(tx := d2.tx + [Knock(0x81, d2.mps)]) else d2
  }

  /** One packet from the slave. */
  function TakePacket(d: Device, m: Message): (d': Device)
    requires Sound(d)
    ensures Sound(d')
  {
    if m.payload == [] || !Has(m.flag, IS_PACKET) then d.(halted := true)
    else
      var n := |m.payload| - 1;
      var epAddr, data := m.payload[n], m.payload[..n];
      if !Has(m.flag, SETUP_DATA) then d.(toDrivers := d.toDrivers + [(epAddr, data)])
      else
        var d1 := Registering(d, data);
        if d1.halted || !Has(m.flag, LAST_PACKET) then d1
        else
          var d2 := HandleResponse(d1);
          if d2.halted then d2
          else d2.(reading := false, armed := d2.armed + (if ToHost(d2.setup) then [(0x00, [])] else []))
  }

  /** The queue without the debug strings at its head. */
  function SkipStrings(rx: seq<Message>): seq<Message> {
    if rx != [] && rx[0].flag == DEBUG_PRINT_AS_STRING then SkipStrings(rx[1..]) else rx
  }

  /** `handle_spi_slave_event` */
  function SlaveEvent(d: Device): (d': Device)
    requires Sound(d)
    ensures Sound(d')
  {
    if !d.reading then d.(len := 0, reading := true)
    else
      var rx := SkipStrings(d.rx);
      if rx == [] then d.(rx := []) else TakePacket(d.(rx := rx[1..]), rx[0])
  }

  /** `dcd_event_setup_received_new` */
  function SetupReceived(d: Device, su: Setup): Device {
    var d1 := d.(setup := su);
    if su.bRequest == SET_ADDRESS then d1.(tx := d.tx + [Message(CHG_ADDR, [])])
    else if su.bRequest == 0x6 && su.wValue == 0x0600 then d1.(armed := d.armed + [(0x80, [])])
    else if su.bmRequestType == 0x21 && su.bRequest == 0x9 then d1.(armed := d.armed + [(0x00, [])])
    else d1.(tx := d.tx + [SetupMessage(su)])
  }

  /** A standard request to the device itself. */
  predicate StandardDevice(su: Setup) { su.bmRequestType % 128 == 0 }

  /** `dcd_event_xfer_complete_new` on endpoint 0. */
  function Ep0Done(d: Device, epAddr: byte): Device {
    if d.setup.bRequest == SET_ADDRESS && epAddr == 0x80 && StandardDevice(d.setup)
    then d.(address := d.setup.wValue % 256) else d
  }

  /** A bus reset from the PC: no address, no endpoints, and the slave is to reset its device. */
  function ResetByHost(d: Device): Device {
    d.(address := 0, mem := DpramAllocator.INIT.(halted := d.mem.halted), tx := d.tx + [Message(RESET_USB, [])])
  }

  // ---------------------------------------------------------------- in the master's terms

  /** Exactly the debug strings at the head of the queue are skipped. */
  lemma {:induction false} SkipsStrings(rx: seq<Message>)
    ensures var n := |rx| - |SkipStrings(rx)|;
      && 0 <= n && SkipStrings(rx) == rx[n..] && (forall i :: 0 <= i < n ==> rx[i].flag == 0x4000)
      && (n < |rx| ==> rx[n].flag != 0x4000)
  {
    if rx != [] && rx[0].flag == DEBUG_PRINT_AS_STRING {
      SkipsStrings(rx[1..]);
    }
  }

  /** A packet that fits joins the aggregate and is armed for the PC. */
  lemma RegisteringSays(d: Device, payload: seq<byte>)
    requires Sound(d) && d.len + |payload| <= AGGREGATE
    ensures var d' := Registering(d, payload);
      && Sound(d') && d'.aggregate[..d'.len] == d.aggregate[..d.len] + payload && d'.len == d.len + |payload|
      && d'.armed == d.armed + [(0x80, payload)] && d'.halted == d.halted
  {
  }

  /** What a packet is taken for. */
  lemma TakePacketSays(d: Device, m: Message)
    requires Sound(d) && !d.halted
    ensures var d' := TakePacket(d, m);
      && (m.payload == [] || !Has(m.flag, IS_PACKET) ==> d'.halted && d'.armed == d.armed)
      && (m.payload != [] && Has(m.flag, IS_PACKET) && !Has(m.flag, SETUP_DATA) ==>
            && d' == d.(toDrivers := d'.toDrivers)
            && d'.toDrivers == d.toDrivers + [(m.payload[|m.payload| - 1], m.payload[..|m.payload| - 1])])
      && (m.payload != [] && Has(m.flag, IS_PACKET) && Has(m.flag, SETUP_DATA) && !d'.halted ==>
            && (!Has(m.flag, LAST_PACKET) ==> d'.reading == d.reading && d'.handled == d.handled)
            && (Has(m.flag, LAST_PACKET) ==>
                  !d'.reading && d'.handled == d.handled + [d.aggregate[..d.len] + m.payload[..|m.payload| - 1]]))
      && d'.address == d.address && d'.setup == d.setup
  {
    if m.payload != [] && d.len + |m.payload| - 1 <= AGGREGATE {
      RegisteringSays(d, m.payload[..|m.payload| - 1]);
    }
    hide Has, WalkFrom, Write;
  }

  // ---------------------------------------------------------------- the code

  class DeviceController {
    var reading: bool
    var setup: Setup
    var bMaxPacketSize: byte
    var bugger: seq<byte>
    var len: nat
    var devAddrCtrl: byte
    var rx: seq<Message>
    var tx: seq<Message>
    var armed: seq<(byte, seq<byte>)>
    var toDrivers: seq<(byte, seq<byte>)>
    var handled: seq<seq<byte>>
    var halted: bool
    const dpram: DpramAllocator.DeviceMemory

    function View(): Device
      reads this, dpram
    {
      Device(reading, setup, bMaxPacketSize, bugger, len, devAddrCtrl, dpram.View(), rx, tx, armed, toDrivers, handled,
             halted)
    }

    predicate Valid()
      reads this, dpram
    {
      Sound(View())
    }

    constructor ()
      ensures Valid() && fresh(dpram) && reading && len == 0 && devAddrCtrl == 0 && !halted
      ensures rx == [] && tx == [] && armed == [] && toDrivers == [] && handled == [] && bMaxPacketSize == 64
      ensures dpram.View() == DpramAllocator.INIT
    {
      reading, setup, bMaxPacketSize, bugger, len := true, Setup(0, 0, 0, 0, 0), 64, Zeros(AGGREGATE), 0;
      devAddrCtrl, rx, tx, armed, toDrivers, handled, halted := 0, [], [], [], [], [], false;
      dpram := new DpramAllocator.DeviceMemory();
    }

    /** The packet is added to the aggregate and armed for the PC. */
    method RegisterResponse(payload: seq<byte>)
      requires Valid()
      modifies this
      ensures Valid() && View() == Registering(old(View()), payload)
      ensures old(len) + |payload| <= 1024 ==>
        && bugger[..len] == old(bugger)[..old(len)] + payload && len == old(len) + |payload|
        && armed == old(armed) + [(0x80, payload)]
      ensures old(len) + |payload| > 1024 ==> halted && armed == old(armed)
    {
      if len + |payload| > |bugger| {
        halted := true;
        return;
      }
      RegisteringSays(View(), payload);
      bugger := Write(bugger, len, payload);
      armed := armed + [(0x80, payload)];
      len := len + |payload|;
    }

    /** The response is handled by the request that it answers. */
    method HandleSetupResponse()
      requires Valid() && !halted
      modifies this, dpram
      ensures Valid() && View() == HandleResponse(old(View()))
      ensures handled == old(handled) + [bugger[..len]] && bugger == old(bugger) && armed == old(armed)
      ensures setup.bRequest == SET_ADDRESS ==> tx == old(tx) && dpram.View() == old(dpram.View())
      ensures setup.bRequest == 6 && setup.wValue == 0x0100 ==> bMaxPacketSize == bugger[7]
    {
      hide WalkFrom;
      handled := handled + [bugger[..len]];
      if setup.bRequest == 0x6 && setup.wValue == 0x100 {
        tx := tx + [Message(CHG_EPX_PACKETSIZE + DEBUG_PRINT_AS_HEX, [bugger[7]])];
        bMaxPacketSize := bugger[7];
      }
      if setup.bRequest == SET_ADDRESS {
        return;
      }
      if setup.wValue == 0x0200 && setup.wLength > 9 {
        var registered, opens, end := Walk(bugger, len, dpram);
        tx := tx + opens;
        if end != Finished {
          halted := true;
          return;
        }
      }
      if setup.wValue == 0x2200 && setup.wIndex == 0x01 {
        tx := tx + [Knock(0x81, bMaxPacketSize)];
      }
    }

    /** One packet from the slave: it joins the response, which its last packet completes, or
        goes to its endpoint's driver. */
    method TakeFromSlave(msg: Message)
      requires Valid() && !halted
      modifies this, dpram
      ensures Valid() && View() == TakePacket(old(View()), msg)
    {
      hide HandleResponse, Registering, Has, ToHost;
      if msg.payload == [] || !Has(msg.flag, IS_PACKET) {
        halted := true;
        return;
      }
      var n := |msg.payload| - 1;
      var epAddr, data := msg.payload[n], msg.payload[..n];
      if Has(msg.flag, SETUP_DATA) {
        RegisterResponse(data);
        if !halted && Has(msg.flag, LAST_PACKET) {
          HandleSetupResponse();
          if halted { return; }
          reading := false;
          if ToHost(setup) {
            armed := armed + [(0x00, [])];
          }
        }
      } else {
        toDrivers := toDrivers + [(epAddr, data)];
      }
    }

    /** After a response has been acted on the next call only starts over; else one packet is
        taken, if there is one behind any debug strings. */
    method HandleSpiSlaveEvent()
      requires Valid() && !halted
      modifies this, dpram
      ensures Valid() && View() == SlaveEvent(old(View()))
      ensures !old(reading) ==> reading && len == 0 && rx == old(rx)
      ensures devAddrCtrl == old(devAddrCtrl) && setup == old(setup)
    {
      hide TakePacket;
      if !reading {
        len := 0;
        reading := true;
        return;
      }
      while rx != [] && rx[0].flag == DEBUG_PRINT_AS_STRING
        invariant View() == old(View()).(rx := rx) && SkipStrings(rx) == SkipStrings(old(rx))
        decreases |rx|
      {
        rx := rx[1..];
      }
      if rx == [] { return; }
      var msg := rx[0];
      rx := rx[1..];
      TakePacketSays(View(), msg);
      TakeFromSlave(msg);
    }

    /** The request becomes the current one; it is forwarded, becomes an address change, or is
        answered here by an empty packet. */
    method SetupReceivedNew(su: Setup)
      modifies this
      ensures View() == SetupReceived(old(View()), su)
      ensures setup == su && devAddrCtrl == old(devAddrCtrl)
      ensures |tx| + |armed| == |old(tx)| + |old(armed)| + 1
      ensures su.bRequest == SET_ADDRESS ==> tx == old(tx) + [Message(CHG_ADDR, [])]
    {
      setup := su;
      if setup.bRequest == SET_ADDRESS {
        tx := tx + [Message(CHG_ADDR, [])];
        return;
      }
      if setup.bRequest == 0x6 && setup.wValue == 0x0600 {
        armed := armed + [(0x80, [])];
        return;
      }
      if setup.bmRequestType == 0x21 && setup.bRequest == 0x9 {
        armed := armed + [(0x00, [])];
        return;
      }
      tx := tx + [SetupMessage(setup)];
    }

    /** The address register changes only with a completion on 0x80 while the current request is
        a SET_ADDRESS to the device. */
    method XferCompleteNew(epAddr: byte)
      modifies this
      ensures View() == Ep0Done(old(View()), epAddr)
      ensures devAddrCtrl != old(devAddrCtrl) ==>
        epAddr == 0x80 && setup.bRequest == SET_ADDRESS && StandardDevice(setup) && devAddrCtrl == setup.wValue % 256
    {
      if setup.bRequest == SET_ADDRESS && epAddr == 0x80 {
        if setup.bmRequestType % 32 == 0 && setup.bmRequestType / 32 % 4 == 0 {
          devAddrCtrl := setup.wValue % 256;
        }
      }
    }

    /** Address 0, all memory of other endpoints free and their registers cleared, and the slave
        told to reset. */
    method BusReset()
      requires DpramAllocator.Registers(dpram.epCtrl)
      modifies this, dpram
      ensures View() == ResetByHost(old(View()))
      ensures devAddrCtrl == 0 && tx == old(tx) + [Message(RESET_USB, [])]
      ensures dpram.live == map[] && dpram.nextBufferPtr == DpramAllocator.FREE
    {
      devAddrCtrl := 0;
      dpram.ResetNonControlEndpoints();
      tx := tx + [Message(RESET_USB, [])];
    }
  }
}
