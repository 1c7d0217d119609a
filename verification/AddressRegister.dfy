/** The master's address register over whole runs (device_event_handlers.c, dcd_rp2040.c).

    Core 0 of the master, the control endpoint towards the PC, and the slave as far as the master
    can tell: it takes requests in order and answers each with packets, the last of them marked;
    `SlaveAnswers` shows that it does no more.  Every packet carries the number of the request
    that it answers, for the theorems only: no branch depends on it. */
module AddressRegister {
  import opened Common
  import opened TransferEngine
  import opened SlaveHost
  import opened ControlRead
  import opened DescriptorWalk
  import opened MasterDevice
  import DpramAllocator
  import SlaveAnswers

  /** A packet and the number of the request that it answers. */
  datatype Tagged = Tagged(data: seq<byte>, req: nat)

  datatype Sys = Sys(
    d: Device,
    tags: seq<nat>,           // the request that each message in rx answers
    n: nat,                   // requests that have come from the PC; the latest is number n
    queue: seq<nat>,          // requests the slave has yet to take
    working: nat,             // the request the slave took last
    answering: bool,          // whether it has more packets of the answer to send
    armed: Option<Tagged>,    // the packet in the buffer of 0x80
    status: bool,             // the buffer status bit of 0x80
    taken: seq<Tagged>,       // packets of 0x80 that the PC has taken
    lost: nat)                // packets of 0x80 overwritten before the PC took them

  datatype Step =
    | FromPc(su: Setup)                           // a setup packet from the PC
    | SlaveTakes                                  // the slave takes the next request
    | SlaveAnswers(p: seq<byte>, last: bool)      // a packet of its answer reaches rx
    | SlaveForwards(m: Message)                   // a packet of another endpoint does
    | Serve                                       // one call of the slave event handler
    | PcTakes                                     // the PC reads the packet on 0x80
    | Done                                        // the handler finds the status of 0x80
    | OutDone                                     // ... or of 0x00
    | Reset                                       // the PC resets the bus

  predicate IsAnswer(m: Message) { Has(m.flag, SETUP_DATA) }

  /** A message as the slave sends them. */
  predicate Plain(m: Message) {
    m.payload != [] && Has(m.flag, IS_PACKET) && m.flag != DEBUG_PRINT_AS_STRING
  }

  /** Answers to requests up to number `n`. */
  predicate Known(st: Sys, n: nat) {
    && |st.tags| == |st.d.rx| && (forall i | 0 <= i < |st.tags| :: st.tags[i] <= n)
    && (forall i | 0 <= i < |st.queue| :: st.queue[i] <= n) && st.working <= n
    && (st.armed.Some? ==> st.armed.value.req <= n)
    && (forall i | 0 <= i < |st.taken| :: st.taken[i].req <= n)
  }

  predicate Wf(st: Sys) {
    && Sound(st.d) && Known(st, st.n)
    && (forall i | 0 <= i < |st.d.rx| :: Plain(st.d.rx[i]))
    && (st.status ==> st.taken != [])
  }

  /** A board that has stopped does nothing more, but the controller still sends what is in the
      buffer. */
  predicate Enabled(st: Sys, step: Step) {
    (st.d.halted ==> step.PcTakes?) &&
    match step
    case SlaveTakes => st.queue != []
    case SlaveAnswers(p, _) => st.answering && |p| <= 64
    case SlaveForwards(m) => SlaveAnswers.OtherPacket(m)
    case PcTakes => st.armed.Some?
    case Done => st.status
    case _ => true
  }

  /** The buffer of 0x80 is written, whether or not the PC has taken what was in it. */
  function Arm(st: Sys, t: Tagged): Sys {
    st.(armed := Some(t), lost := st.lost + if st.armed.Some? then 1 else 0)
  }

  /** A SET_ADDRESS that is a standard request to the device: type 0 in bits 5 and 6 of its request
      type, recipient 0 in bits 0 to 4. */
  predicate IsSetAddress(su: Setup) {
    su.bRequest == 5 && su.bmRequestType % 32 == 0 && su.bmRequestType / 32 % 4 == 0
  }

  /** The request goes to the slave, as itself or as an address change. */
  predicate GoesToSlave(su: Setup) {
    su.bRequest == SET_ADDRESS ||
    (!(su.bRequest == 0x6 && su.wValue == 0x0600) && !(su.bmRequestType == 0x21 && su.bRequest == 0x9))
  }

  function Next(st: Sys, step: Step): (st': Sys)
    requires Wf(st) && Enabled(st, step)
  {
    match step
    case FromPc(su) =>
      var d' := SetupReceived(st.d, su);
      var st1 := st.(d := d', n := st.n + 1, queue := st.queue + (if GoesToSlave(su) then [st.n + 1] else []));
      if |d'.armed| > |st.d.armed| && d'.armed[|st.d.armed|].0 == 0x80 then Arm(st1, Tagged([], st.n + 1)) else st1
    case SlaveTakes => st.(working := st.queue[0], answering := true, queue := st.queue[1..])
    case SlaveAnswers(p, last) =>
      st.(d := st.d.(rx := st.d.rx + [Packet(p, last)]), tags := st.tags + [st.working], answering := !last)
    case SlaveForwards(m) => st.(d := st.d.(rx := st.d.rx + [m]), tags := st.tags + [0])
    case Serve =>
      var d' := SlaveEvent(st.d);
      if !st.d.reading || st.d.rx == [] then st.(d := d')
      else
        var st1 := st.(d := d', tags := st.tags[1..]);
        if |d'.armed| > |st.d.armed| then Arm(st1, Tagged(d'.armed[|st.d.armed|].1, st.tags[0])) else st1
    case PcTakes => st.(taken := st.taken + [st.armed.value], armed := None, status := true)
    case Done =>
      // a buffer that is full again trips the engine's assertion
      if st.armed.Some? then st.(d := st.d.(halted := true), status := false)
      else st.(d := Ep0Done(st.d, 0x80), status := false)
    case OutDone => st.(d := Ep0Done(st.d, 0x00))
    case Reset => st.(d := ResetByHost(st.d))
  }

  // ---------------------------------------------------------------- one step

  /** A packet of an answer: it is armed if it fits the aggregator, and the board halts if not. */
  lemma ServesAnswer(d: Device)
    requires Sound(d) && d.reading && d.rx != [] && Plain(d.rx[0]) && IsAnswer(d.rx[0])
    ensures var d', p := SlaveEvent(d), d.rx[0].payload[..|d.rx[0].payload| - 1];
      && d'.rx == d.rx[1..] && d'.setup == d.setup && d'.address == d.address && Sound(d')
      && (d.len + |p| > AGGREGATE ==> d'.halted && d'.armed == d.armed)
      && (d.len + |p| <= AGGREGATE ==> d.armed + [(0x80, p)] <= d'.armed)
  {
    hide Has, WalkFrom, Write;
  }

  /** While the current request is a SET_ADDRESS, nothing about an answer can halt the board, but
      for one that is too long. */
  lemma ServesUnderSetAddress(d: Device)
    requires Sound(d) && d.reading && d.rx != [] && Plain(d.rx[0]) && IsAnswer(d.rx[0]) && !d.halted
    requires d.setup.bRequest == SET_ADDRESS && d.len + |d.rx[0].payload| - 1 <= AGGREGATE
    ensures var d', p := SlaveEvent(d), d.rx[0].payload[..|d.rx[0].payload| - 1];
      && !d'.halted
      && d'.armed == d.armed + [(0x80, p)]
           + (if Has(d.rx[0].flag, LAST_PACKET) && ToHost(d.setup) then [(0x00, [])] else [])
  {
    hide Has, WalkFrom, Write;
  }

  lemma ServesOther(d: Device)
    requires Sound(d) && d.reading && d.rx != [] && Plain(d.rx[0]) && !IsAnswer(d.rx[0])
    ensures var d' := SlaveEvent(d);
      d' == d.(rx := d.rx[1..], toDrivers := d'.toDrivers)
  {
    hide Has, WalkFrom, Write;
  }

  lemma AnswersPlain(p: seq<byte>, last: bool)
    ensures Plain(Packet(p, last)) && IsAnswer(Packet(p, last)) && Has(Packet(p, last).flag, LAST_PACKET) == last
    ensures Packet(p, last).payload[..|p|] == p && |Packet(p, last).payload| == |p| + 1
  {
  }

  /** What a call of the slave event handler does to the control endpoint. */
  lemma Serves(st: Sys)
    requires Wf(st) && Enabled(st, Serve)
    ensures var st' := Next(st, Serve);
      && Wf(st') && st'.n == st.n && st'.d.setup == st.d.setup && st'.d.address == st.d.address
      && st'.queue == st.queue && st'.working == st.working && st'.answering == st.answering
      && st'.status == st.status && st'.taken == st.taken
      && (if !st.d.reading then st' == st.(d := st.d.(len := 0, reading := true))
          else if st.d.rx == [] then st' == st
          else
            && st'.d.rx == st.d.rx[1..] && st'.tags == st.tags[1..]
            && var m := st.d.rx[0];
              var p := m.payload[..|m.payload| - 1];
              if !IsAnswer(m) then
                && st'.armed == st.armed && st'.d.len == st.d.len && st'.d.reading
                && st'.d.armed == st.d.armed && !st'.d.halted
              else if st.d.len + |p| > AGGREGATE then st'.d.halted
              else st'.armed == Some(Tagged(p, st.tags[0])) && st.d.armed + [(0x80, p)] <= st'.d.armed)
  {
    if st.d.reading && st.d.rx != [] {
      if IsAnswer(st.d.rx[0]) { ServesAnswer(st.d); } else { ServesOther(st.d); }
      StringsNone(st.d.rx);
      hide SlaveEvent, IsAnswer, Plain;
    } else {
      hide TakePacket, Plain, Has;
      if st.d.rx != [] { StringsNone(st.d.rx); }
    }
  }

  lemma StringsNone(rx: seq<Message>)
    requires rx != [] && Plain(rx[0])
    ensures SkipStrings(rx) == rx
  {
  }

  lemma NextWf(st: Sys, step: Step)
    requires Wf(st) && Enabled(st, step)
    ensures Wf(Next(st, step))
  {
    match step
    case Serve => Serves(st);
    case SlaveAnswers(p, last) => AnswersPlain(p, last); hide Packet, Has;
    case FromPc(su) => SetupSound(st.d, su); hide SetupReceived, Plain;
    case _ => hide Has;
  }

  lemma SetupSound(d: Device, su: Setup)
    requires Sound(d)
    ensures var d' := SetupReceived(d, su);
      && Sound(d') && d'.rx == d.rx && d'.setup == su && d'.address == d.address && d'.halted == d.halted
      && d'.reading == d.reading && d'.len == d.len
      && d'.armed == d.armed +
           (if GoesToSlave(su) then []
            else if su.bRequest == 0x6 && su.wValue == 0x0600 then [(0x80, [])]
            else [(0x00, [])])
  {
  }

  // ---------------------------------------------------------------- runs

  function Boot(): Sys {
    Sys(Device(true, SlaveHost.Setup(0, 0, 0, 0, 0), 64, Zeros(AGGREGATE), 0, 0, DpramAllocator.INIT,
               [], [], [], [], [], false),
        [], 0, [], 0, false, None, false, [], 0)
  }

  /** The state after some steps from `st`, if each of them was enabled. */
  function RunFrom(st: Sys, steps: seq<Step>): (r: Option<Sys>)
    requires Wf(st)
    ensures r.Some? ==> Wf(r.value)
    decreases |steps|
  {
    if steps == [] then Some(st)
    else if !Enabled(st, steps[0]) then None
    else
      NextWf(st, steps[0]);
      RunFrom(Next(st, steps[0]), steps[1..])
  }

  lemma {:induction false} RunsOn(st: Sys, a: seq<Step>, b: seq<Step>)
    requires Wf(st) && RunFrom(st, a).Some?
    ensures RunFrom(st, a + b) == RunFrom(RunFrom(st, a).value, b)
    decreases |a|
  {
    hide Wf, Enabled, Next;
    if a == [] {
      assert a + b == b;
    } else {
      NextWf(st, a[0]);
      RunsOn(Next(st, a[0]), a[1..], b);
      assert (a + b)[0] == a[0] && (a + b)[1..] == a[1..] + b;
    }
  }

  /** The next `Done` writes the register. */
  predicate Writes(st: Sys) {
    !st.d.halted && st.status && st.armed.None? && IsSetAddress(st.d.setup)
  }

  /** ... and the packet the PC took last answers the very request that is current. */
  predicate Confirmed(st: Sys) { st.taken != [] && st.taken[|st.taken| - 1].req == st.n }

  /** The register changes at a write and at a bus reset, and at no other step. */
  lemma RegisterChanges(st: Sys, step: Step)
    requires Wf(st) && Enabled(st, step)
    ensures Next(st, step).d.address ==
      if step.Reset? then 0
      else if step.Done? && Writes(st) then st.d.setup.wValue % 256
      else st.d.address
  {
    match step
    case Serve => Serves(st);
    case FromPc(su) => SetupSound(st.d, su); hide SetupReceived;
    case _ =>
  }

  // ---------------------------------------------------------------- after one SET_ADDRESS

  predicate NoSetup(steps: seq<Step>) { forall s | s in steps :: !s.FromPc? }

  /** Until the PC's next request, the register is written only once a packet that answers this
      SET_ADDRESS has been armed and taken by the PC. */
  ghost predicate OnlyWhenAnswered(st: Sys)
    requires Wf(st)
  {
    forall cont | NoSetup(cont) && RunFrom(st, cont).Some? && Writes(RunFrom(st, cont).value) ::
      Confirmed(RunFrom(st, cont).value)
  }

  /** The data of the first packet of an answer in a queue. */
  function FirstAnswer(rx: seq<Message>): Option<seq<byte>> {
    if rx == [] then None
    else if IsAnswer(rx[0]) && rx[0].payload != [] then Some(rx[0].payload[..|rx[0].payload| - 1])
    else FirstAnswer(rx[1..])
  }

  /** The aggregator's fill level when the next packet is taken. */
  function Level(d: Device): nat { if d.reading then d.len else 0 }

  /** Something of earlier requests is still on its way to the PC: its status, its packet, or a
      packet that the master has yet to arm or the slave may yet send. */
  predicate Outstanding(st: Sys) {
    || st.status || st.armed.Some?
    || (match FirstAnswer(st.d.rx)
        case Some(p) => Level(st.d) + |p| <= AGGREGATE
        case None => st.answering || st.queue != [])
  }

  /** All that is on its way to the PC answers request `n`. */
  predicate Clean(st: Sys, n: nat) {
    && st.n == n && st.d.setup.bRequest == SET_ADDRESS
    && |st.tags| == |st.d.rx| && (forall i | 0 <= i < |st.tags| && IsAnswer(st.d.rx[i]) :: st.tags[i] == n)
    && (st.armed.Some? ==> st.armed.value.req == n)
    && (st.status ==> Confirmed(st))
    && (st.answering ==> st.working == n)
    && (forall i | 0 <= i < |st.queue| :: st.queue[i] == n)
  }

  /** The next packet of an answer overflows the aggregator, which halts the board. */
  predicate Doomed(st: Sys) {
    && st.armed.None? && !st.status
    && FirstAnswer(st.d.rx).Some? && Level(st.d) + |FirstAnswer(st.d.rx).value| > AGGREGATE
  }

  lemma {:induction false} FirstAnswerAppends(rx: seq<Message>, m: Message)
    requires FirstAnswer(rx).Some?
    ensures FirstAnswer(rx + [m]) == FirstAnswer(rx)
  {
    hide IsAnswer;
    if !(IsAnswer(rx[0]) && rx[0].payload != []) {
      FirstAnswerAppends(rx[1..], m);
      assert (rx + [m])[1..] == rx[1..] + [m];
    }
  }

  lemma {:induction false} NoAnswerIn(rx: seq<Message>, i: nat)
    requires FirstAnswer(rx).None? && i < |rx| && rx[i].payload != []
    ensures !IsAnswer(rx[i])
  {
    hide IsAnswer;
    if i > 0 {
      NoAnswerIn(rx[1..], i - 1);
    }
  }

  lemma StaysClean(st: Sys, step: Step, n: nat)
    requires Wf(st) && Clean(st, n) && Enabled(st, step) && !step.FromPc?
    ensures Clean(Next(st, step), n)
  {
    match step
    case Serve =>
      Serves(st);
      hide SlaveEvent, Next, Plain, IsAnswer, Sound;
    case SlaveAnswers(p, last) => hide Packet, IsAnswer, Plain, Sound;
    case _ => hide Plain, IsAnswer, Sound, Has;
  }

  lemma StaysDoomed(st: Sys, step: Step)
    requires Wf(st) && Doomed(st) && Enabled(st, step) && !step.FromPc?
    ensures Next(st, step).d.halted || Doomed(Next(st, step))
  {
    match step
    case Serve =>
      Serves(st);
      hide SlaveEvent, Next, IsAnswer, Sound;
    case SlaveAnswers(p, last) => FirstAnswerAppends(st.d.rx, Packet(p, last));
    case SlaveForwards(m) => FirstAnswerAppends(st.d.rx, m);
    case _ =>
  }

  lemma StaysStopped(st: Sys, step: Step)
    requires Wf(st) && st.d.halted && Enabled(st, step)
    ensures Next(st, step).d == st.d
  {
  }

  /** From a state in which all is clean, or nothing can be armed any more, every write is
      confirmed. */
  lemma {:induction false} Settled(st: Sys, cont: seq<Step>, n: nat)
    requires Wf(st) && st.n == n && (Clean(st, n) || Doomed(st) || st.d.halted)
    requires NoSetup(cont) && RunFrom(st, cont).Some?
    ensures Writes(RunFrom(st, cont).value) ==> Confirmed(RunFrom(st, cont).value)
    decreases |cont|
  {
    if cont != [] {
      assert cont[0] in cont;
      NextWf(st, cont[0]);
      SameRequest(st, cont[0]);
      if Clean(st, n) {
        StaysClean(st, cont[0], n);
      } else if st.d.halted {
        StaysStopped(st, cont[0]);
      } else {
        StaysDoomed(st, cont[0]);
      }
      hide Clean, Doomed, Next, Wf, Writes, Confirmed;
      Settled(Next(st, cont[0]), cont[1..], n);
    }
  }

  lemma SameRequest(st: Sys, step: Step)
    requires Wf(st) && Enabled(st, step) && !step.FromPc?
    ensures Next(st, step).n == st.n && Next(st, step).d.setup == st.d.setup
  {
    if step.Serve? { Serves(st); hide SlaveEvent; }
  }

  lemma BeginsSettled(st: Sys, su: Setup)
    requires Wf(st) && !st.d.halted && IsSetAddress(su) && !Outstanding(st)
    ensures var st' := Next(st, FromPc(su)); Clean(st', st.n + 1) || Doomed(st')
  {
    SetupSound(st.d, su);
    hide SetupReceived, IsAnswer;
    if FirstAnswer(st.d.rx).None? {
      forall i | 0 <= i < |st.d.rx| ensures !IsAnswer(st.d.rx[i]) {
        NoAnswerIn(st.d.rx, i);
      }
    }
  }

  // ---------------------------------------------------------------- when something is outstanding

  /** All that has come so far answers earlier requests than the current SET_ADDRESS, but the
      register would already be written if the PC's last packet were done with. */
  predicate Early(st: Sys, n: nat) {
    && Wf(st) && st.n == n + 1 && !st.d.halted && IsSetAddress(st.d.setup)
    && (forall i | 0 <= i < |st.tags| :: st.tags[i] <= n)
    && (st.armed.Some? ==> st.armed.value.req <= n)
    && (forall i | 0 <= i < |st.taken| :: st.taken[i].req <= n)
  }

  ghost predicate EarlyWrite(st: Sys, cont: seq<Step>)
    requires Wf(st)
  {
    && NoSetup(cont) && RunFrom(st, cont).Some?
    && Writes(RunFrom(st, cont).value) && !Confirmed(RunFrom(st, cont).value)
  }

  lemma Prepends(st: Sys, step: Step, cont: seq<Step>)
    requires Wf(st) && Enabled(st, step) && !step.FromPc?
    requires Wf(Next(st, step)) && EarlyWrite(Next(st, step), cont)
    ensures EarlyWrite(st, [step] + cont)
  {
    assert ([step] + cont)[0] == step && ([step] + cont)[1..] == cont;
    hide Next, Wf, Enabled, Writes, Confirmed;
  }

  /** A packet in the buffer, or its status, is enough. */
  lemma TakenEarly(st: Sys, n: nat) returns (cont: seq<Step>)
    requires Early(st, n) && (st.status || st.armed.Some?)
    ensures EarlyWrite(st, cont)
  {
    if st.armed.None? {
      cont := [];
    } else {
      NextWf(st, PcTakes);
      cont := [PcTakes] + [];
      assert EarlyWrite(Next(st, PcTakes), []);
      Prepends(st, PcTakes, []);
    }
  }

  /** So is a packet in rx that the aggregator has room for: the handler gets to it. */
  lemma {:induction false} ServedEarly(st: Sys, n: nat) returns (cont: seq<Step>)
    requires Early(st, n) && FirstAnswer(st.d.rx).Some?
    requires Level(st.d) + |FirstAnswer(st.d.rx).value| <= AGGREGATE
    ensures EarlyWrite(st, cont)
    decreases |st.d.rx|, !st.d.reading
  {
    if st.status || st.armed.Some? {
      cont := TakenEarly(st, n);
    } else {
      var st' := Next(st, Serve);
      NextWf(st, Serve);
      ServesEarly(st, n);
      hide Next, Early, EarlyWrite, SlaveEvent;
      var more: seq<Step>;
      if st.d.reading && IsAnswer(st.d.rx[0]) {
        more := TakenEarly(st', n);
      } else {
        more := ServedEarly(st', n);
      }
      cont := [Serve] + more;
      Prepends(st, Serve, more);
    }
  }

  lemma ServesEarly(st: Sys, n: nat)
    requires Early(st, n) && FirstAnswer(st.d.rx).Some?
    requires Level(st.d) + |FirstAnswer(st.d.rx).value| <= AGGREGATE
    ensures var st' := Next(st, Serve);
      && st.d.rx != [] && Early(st', n)
      && (if !st.d.reading then st'.d.rx == st.d.rx && st'.d.reading && Level(st'.d) == Level(st.d)
          else if IsAnswer(st.d.rx[0]) then st'.armed.Some?
          else
            && |st'.d.rx| < |st.d.rx| && FirstAnswer(st'.d.rx) == FirstAnswer(st.d.rx)
            && Level(st'.d) == Level(st.d))
  {
    Serves(st);
    if st.d.reading && IsAnswer(st.d.rx[0]) { ServesUnderSetAddress(st.d); }
    hide SlaveEvent, Has;
  }

  /** So is a slave that has not answered everything. */
  lemma AnsweredEarly(st: Sys, n: nat) returns (cont: seq<Step>)
    requires Early(st, n) && FirstAnswer(st.d.rx).None? && st.answering && st.working <= n
    ensures EarlyWrite(st, cont)
  {
    var step := SlaveAnswers([], true);
    var st' := Next(st, step);
    NextWf(st, step);
    AnswersPlain([], true);
    FirstAnswerOfLast(st.d.rx, Packet([], true));
    assert Early(st', n) && Level(st'.d) <= AGGREGATE;
    hide Next, Early, EarlyWrite, Packet;
    var more := ServedEarly(st', n);
    cont := [step] + more;
    Prepends(st, step, more);
  }

  lemma {:induction false} FirstAnswerOfLast(rx: seq<Message>, m: Message)
    requires FirstAnswer(rx).None? && IsAnswer(m) && m.payload != []
    ensures FirstAnswer(rx + [m]) == Some(m.payload[..|m.payload| - 1])
  {
    hide IsAnswer;
    if rx == [] {
      assert rx + [m] == [m];
    } else {
      assert (rx + [m])[1..] == rx[1..] + [m];
      FirstAnswerOfLast(rx[1..], m);
    }
  }

  lemma QueuedEarly(st: Sys, n: nat) returns (cont: seq<Step>)
    requires Early(st, n) && FirstAnswer(st.d.rx).None? && st.queue != [] && st.queue[0] <= n
    ensures EarlyWrite(st, cont)
  {
    var st' := Next(st, SlaveTakes);
    NextWf(st, SlaveTakes);
    assert Early(st', n);
    hide Next, Early, EarlyWrite;
    var more := AnsweredEarly(st', n);
    cont := [SlaveTakes] + more;
    Prepends(st, SlaveTakes, more);
  }

  lemma WritesEarly(st: Sys, su: Setup)
    requires Wf(st) && !st.d.halted && IsSetAddress(su) && Outstanding(st)
    requires Wf(Next(st, FromPc(su)))
    ensures !OnlyWhenAnswered(Next(st, FromPc(su)))
  {
    var st', n := Next(st, FromPc(su)), st.n;
    SetupSound(st.d, su);
    assert Early(st', n) && st'.armed == st.armed && st'.status == st.status && st'.answering == st.answering;
    assert st'.d.rx == st.d.rx && st'.queue == st.queue + [n + 1] && st'.working == st.working
           && Level(st'.d) == Level(st.d);
    hide Next, Early, SetupReceived;
    var cont: seq<Step>;
    if st.status || st.armed.Some? {
      cont := TakenEarly(st', n);
    } else if FirstAnswer(st.d.rx).Some? {
      cont := ServedEarly(st', n);
    } else if st.answering {
      cont := AnsweredEarly(st', n);
    } else {
      cont := QueuedEarly(st', n);
    }
  }

  /** Exactly when a SET_ADDRESS is safe.  Until the next request from the PC, the register is
      written only after a packet that answers this very request has been armed and taken, if
      and only if, when its setup packet came, no packet of an earlier request was on its way to
      the PC: not in the buffer of 0x80 or its status bit, not in the master's queue, and not
      still to come from the slave.  Section 9.4.6 of the USB 2.0 specification asks for the
      former. */
  lemma WrittenWhenAnsweredIff(st: Sys, su: Setup)
    requires Wf(st) && !st.d.halted && IsSetAddress(su)
    ensures Wf(Next(st, FromPc(su)))
    ensures OnlyWhenAnswered(Next(st, FromPc(su))) <==> !Outstanding(st)
  {
    NextWf(st, FromPc(su));
    if Outstanding(st) {
      WritesEarly(st, su);
    } else {
      var st' := Next(st, FromPc(su));
      BeginsSettled(st, su);
      assert st'.n == st.n + 1;
      hide Next, Clean, Doomed, Wf, Writes, Confirmed, Outstanding, NoSetup;
      forall cont | NoSetup(cont) && RunFrom(st', cont).Some? && Writes(RunFrom(st', cont).value)
        ensures Confirmed(RunFrom(st', cont).value)
      {
        Settled(st', cont, st'.n);
      }
    }
  }

  // ---------------------------------------------------------------- the status packet

  /** A device that ends an address change as it has to: with one empty packet. */
  predicate EmptyAnswers(steps: seq<Step>) {
    forall s | s in steps && s.SlaveAnswers? :: s.p == [] && s.last
  }

  function Answers(rx: seq<Message>): nat {
    if rx == [] then 0 else (if IsAnswer(rx[0]) then 1 else 0) + Answers(rx[1..])
  }

  lemma {:induction false} AnswersAppends(rx: seq<Message>, m: Message)
    ensures Answers(rx + [m]) == Answers(rx) + if IsAnswer(m) then 1 else 0
  {
    hide IsAnswer;
    if rx == [] {
      assert rx + [m] == [m];
      assert Answers([m]) == (if IsAnswer(m) then 1 else 0) + Answers([m][1..]);
    } else {
      assert (rx + [m])[1..] == rx[1..] + [m];
      AnswersAppends(rx[1..], m);
    }
  }

  lemma {:induction false} NoneCounted(rx: seq<Message>)
    requires FirstAnswer(rx).None? && forall i | 0 <= i < |rx| :: rx[i].payload != []
    ensures Answers(rx) == 0
  {
    hide IsAnswer;
    if rx != [] {
      NoneCounted(rx[1..]);
    }
  }

  /** How many empty packets may still be armed: queued requests, an answer to come, answers in rx. */
  function Due(st: Sys): nat {
    |st.queue| + (if st.answering then 1 else 0) + Answers(st.d.rx)
  }

  /** The one status packet of the address change is due, armed, or taken. */
  predicate OneStatus(st: Sys, from: Sys) {
    && Clean(st, st.n) && !ToHost(st.d.setup)
    && (forall i | 0 <= i < |st.d.rx| && IsAnswer(st.d.rx[i]) :: |st.d.rx[i].payload| == 1)
    && (if Due(st) == 0 then
          && st.d.armed == from.d.armed + [(0x80, [])]
          && (if st.armed.Some? then st.armed == Some(Tagged([], st.n)) && !st.status && st.taken == from.taken
              else st.taken == from.taken + [Tagged([], st.n)])
        else
          && Due(st) == 1 && st.d.armed == from.d.armed && st.taken == from.taken && st.armed.None? && !st.status)
  }

  lemma ServesStatus(d: Device)
    requires Sound(d) && d.reading && d.rx != [] && Plain(d.rx[0]) && IsAnswer(d.rx[0]) && !d.halted
    requires d.setup.bRequest == SET_ADDRESS && !ToHost(d.setup) && |d.rx[0].payload| == 1
    ensures SlaveEvent(d).armed == d.armed + [(0x80, [])]
  {
    ServesUnderSetAddress(d);
    assert d.rx[0].payload[..0] == [];
    hide SlaveEvent, Has, Plain, IsAnswer;
  }

  lemma ServesOne(st: Sys, from: Sys)
    requires Wf(st) && OneStatus(st, from) && Enabled(st, Serve)
    ensures OneStatus(Next(st, Serve), from)
  {
    StaysClean(st, Serve, st.n);
    Serves(st);
    if st.d.reading && st.d.rx != [] && IsAnswer(st.d.rx[0]) { ServesStatus(st.d); }
    hide Next, SlaveEvent, Clean, Sound, Has, Plain, IsAnswer, ToHost, Known;
  }

  lemma StaysOne(st: Sys, step: Step, from: Sys)
    requires Wf(st) && OneStatus(st, from) && Enabled(st, step) && !step.FromPc?
    requires step.SlaveAnswers? ==> step.p == [] && step.last
    ensures OneStatus(Next(st, step), from)
  {
    match step
    case Serve => ServesOne(st, from);
    case SlaveAnswers(p, last) =>
      AnswersPlain(p, last);
      AnswersAppends(st.d.rx, Packet(p, last));
      StaysClean(st, step, st.n);
      hide Packet, Clean, IsAnswer, Plain, Sound, Answers;
    case SlaveForwards(m) =>
      AnswersAppends(st.d.rx, m);
      StaysClean(st, step, st.n);
      hide Clean, Plain, Sound, Answers;
    case _ => StaysClean(st, step, st.n); hide Clean, Plain, IsAnswer, Sound, Has, Answers;
  }

  lemma BeginsOne(st: Sys, su: Setup)
    requires Wf(st) && !st.d.halted && IsSetAddress(su) && !ToHost(su) && !Outstanding(st)
    ensures var st' := Next(st, FromPc(su)); OneStatus(st', st) || Doomed(st')
  {
    SetupSound(st.d, su);
    BeginsSettled(st, su);
    if FirstAnswer(st.d.rx).None? {
      NoneCounted(st.d.rx);
      forall i | 0 <= i < |st.d.rx| ensures !IsAnswer(st.d.rx[i]) {
        NoAnswerIn(st.d.rx, i);
      }
    }
    hide SetupReceived, IsAnswer, Answers, Clean;
    assert FirstAnswer(st.d.rx).None? ==> Next(st, FromPc(su)).queue == [st.n + 1];
  }

  lemma {:induction false} OneStatusOverRuns(st: Sys, cont: seq<Step>, from: Sys)
    requires Wf(st) && (OneStatus(st, from) || Doomed(st) || st.d.halted)
    requires NoSetup(cont) && EmptyAnswers(cont) && RunFrom(st, cont).Some?
    ensures var x := RunFrom(st, cont).value; OneStatus(x, from) || Doomed(x) || x.d.halted
    decreases |cont|
  {
    if cont != [] {
      assert cont[0] in cont;
      NextWf(st, cont[0]);
      if OneStatus(st, from) {
        StaysOne(st, cont[0], from);
      } else if st.d.halted {
        StaysStopped(st, cont[0]);
      } else {
        StaysDoomed(st, cont[0]);
      }
      hide OneStatus, Doomed, Next, Wf;
      OneStatusOverRuns(Next(st, cont[0]), cont[1..], from);
    }
  }

  /** A SET_ADDRESS that comes when nothing is outstanding, to a device that ends it with its
      empty status packet: when the register is written, exactly one packet has been armed
      since, it is empty, and it is the packet that the PC has taken. */
  lemma WrittenAtStatusPacket(st: Sys, su: Setup, cont: seq<Step>)
    requires Wf(st) && !st.d.halted && IsSetAddress(su) && !ToHost(su) && !Outstanding(st)
    requires Wf(Next(st, FromPc(su))) && NoSetup(cont) && EmptyAnswers(cont)
    requires RunFrom(Next(st, FromPc(su)), cont).Some? && Writes(RunFrom(Next(st, FromPc(su)), cont).value)
    ensures var x := RunFrom(Next(st, FromPc(su)), cont).value;
      && x.d.armed == st.d.armed + [(0x80, [])]
      && x.taken == st.taken + [Tagged([], x.n)]
  {
    BeginsOne(st, su);
    OneStatusOverRuns(Next(st, FromPc(su)), cont, st);
    hide Next, Clean, Wf, Answers;
  }

  // ---------------------------------------------------------------- whole runs

  /** The PC sends a SET_ADDRESS only when nothing of an earlier request is outstanding. */
  ghost predicate Polite(st: Sys, steps: seq<Step>)
    requires Wf(st)
    decreases |steps|
  {
    steps == [] || !Enabled(st, steps[0]) ||
    (NextWf(st, steps[0]);
     && (steps[0].FromPc? && IsSetAddress(steps[0].su) ==> !Outstanding(st))
     && Polite(Next(st, steps[0]), steps[1..]))
  }

  /** With such a PC, every write of the register in every run is confirmed. */
  lemma {:induction false} PoliteWritesConfirmed(st: Sys, steps: seq<Step>)
    requires Wf(st) && RunFrom(st, steps).Some? && Polite(st, steps)
    requires IsSetAddress(st.d.setup) ==> Clean(st, st.n) || Doomed(st) || st.d.halted
    ensures Writes(RunFrom(st, steps).value) ==> Confirmed(RunFrom(st, steps).value)
    decreases |steps|
  {
    if steps != [] {
      NextWf(st, steps[0]);
      KeepsSettled(st, steps[0]);
      hide Clean, Doomed, Next, Wf, Writes, Confirmed, Outstanding, IsSetAddress, Enabled;
      PoliteWritesConfirmed(Next(st, steps[0]), steps[1..]);
    }
  }

  lemma KeepsSettled(st: Sys, step: Step)
    requires Wf(st) && Enabled(st, step)
    requires IsSetAddress(st.d.setup) ==> Clean(st, st.n) || Doomed(st) || st.d.halted
    requires step.FromPc? && IsSetAddress(step.su) ==> !Outstanding(st)
    ensures var st' := Next(st, step);
      IsSetAddress(st'.d.setup) ==> Clean(st', st'.n) || Doomed(st') || st'.d.halted
  {
    if step.FromPc? {
      SetupSound(st.d, step.su);
      if IsSetAddress(step.su) { BeginsSettled(st, step.su); }
      hide SetupReceived, Clean, Doomed, Outstanding;
    } else {
      SameRequest(st, step);
      if IsSetAddress(st.d.setup) {
        if Clean(st, st.n) { StaysClean(st, step, st.n); } else if Doomed(st) { StaysDoomed(st, step); }
      }
      hide Next, Clean, Doomed;
    }
  }

  /** The register from power-up on: 0, or what the SET_ADDRESS current at the latest write since
      the last bus reset said. */
  function RegisterAfter(st: Sys, steps: seq<Step>, address: byte): byte
    requires Wf(st) && RunFrom(st, steps).Some?
    decreases |steps|
  {
    if steps == [] then address
    else
      NextWf(st, steps[0]);
      RegisterAfter(Next(st, steps[0]), steps[1..],
        if steps[0].Reset? then 0
        else if steps[0].Done? && Writes(st) then st.d.setup.wValue % 256
        else address)
  }

  lemma {:induction false} RegisterOverRuns(st: Sys, steps: seq<Step>)
    requires Wf(st) && RunFrom(st, steps).Some?
    ensures RunFrom(st, steps).value.d.address == RegisterAfter(st, steps, st.d.address)
    decreases |steps|
  {
    if steps != [] {
      NextWf(st, steps[0]);
      RegisterChanges(st, steps[0]);
      hide Next, Wf, Writes, Enabled;
      RegisterOverRuns(Next(st, steps[0]), steps[1..]);
    }
  }

  lemma BootWf()
    ensures Wf(Boot()) && !Boot().d.halted && !IsSetAddress(Boot().d.setup)
  {
  }

  // ---------------------------------------------------------------- the run in which it fails

  /** A request is under way when the PC sends a SET_ADDRESS: the PC takes the first packet of the
      old answer, and its completion writes the register, although the slave has not even taken
      the address change and no packet that answers it was ever armed. */
  lemma ChangesTooEarly(su: Setup, p: seq<byte>, a: u16) returns (steps: seq<Step>)
    requires Forwarded(su) && |p| <= 64
    ensures Wf(Boot()) && RunFrom(Boot(), steps).Some?
    ensures var st := RunFrom(Boot(), steps).value;
      && st.d.address == a % 256 && st.d.armed == [(0x80, p)]
      && st.queue == [2] && st.n == 2 && st.taken == [Tagged(p, 1)]
  {
    BootWf();
    var first, st := FirstSteps(su, p);
    hide Next, Wf, Enabled, Boot;
    LastSteps(st, p, a);
    var last := [FromPc(SlaveHost.Setup(0, SET_ADDRESS, a, 0, 0)), PcTakes, Done];
    RunsOn(Boot(), first, last);
    steps := first + last;
  }

  lemma FirstSteps(su: Setup, p: seq<byte>) returns (steps: seq<Step>, st: Sys)
    requires Forwarded(su) && |p| <= 64
    ensures Wf(Boot()) && RunFrom(Boot(), steps) == Some(st)
    ensures Wf(st) && !st.d.halted && st.n == 1 && st.armed == Some(Tagged(p, 1)) && !st.status
    ensures st.queue == [] && st.taken == [] && st.d.armed == [(0x80, p)]
  {
    BootWf();
    var s0 := Boot();
    var s1 := Next(s0, FromPc(su));
    NextWf(s0, FromPc(su));
    var s2 := Next(s1, SlaveTakes);
    NextWf(s1, SlaveTakes);
    var s3 := Next(s2, SlaveAnswers(p, false));
    NextWf(s2, SlaveAnswers(p, false));
    AnswersPlain(p, false);
    ServesFirst(s3.d, p);
    assert s3.tags == [1];
    st := Next(s3, Serve);
    NextWf(s3, Serve);
    assert st.armed == Some(Tagged(p, 1)) && st.d.armed == [(0x80, p)];
    hide SlaveEvent, Packet, Next, Wf, Enabled;
    Unrolls(s3, Serve, []);
    Unrolls(s2, SlaveAnswers(p, false), [Serve] + []);
    Unrolls(s1, SlaveTakes, [SlaveAnswers(p, false)] + ([Serve] + []));
    Unrolls(s0, FromPc(su), [SlaveTakes] + ([SlaveAnswers(p, false)] + ([Serve] + [])));
    steps := [FromPc(su)] + ([SlaveTakes] + ([SlaveAnswers(p, false)] + ([Serve] + [])));
  }

  predicate Forwarded(su: Setup) { GoesToSlave(su) && su.bRequest != SET_ADDRESS }

  lemma Unrolls(st: Sys, step: Step, rest: seq<Step>)
    requires Wf(st) && Enabled(st, step) && Wf(Next(st, step))
    ensures RunFrom(st, [step] + rest) == RunFrom(Next(st, step), rest)
  {
    assert ([step] + rest)[0] == step && ([step] + rest)[1..] == rest;
    hide Next, Wf, Enabled;
  }

  lemma ServesFirst(d: Device, p: seq<byte>)
    requires Sound(d) && d.reading && d.len == 0 && d.rx == [Packet(p, false)] && |p| <= 64
    ensures var d' := SlaveEvent(d);
      d'.armed == d.armed + [(0x80, p)] && d'.halted == d.halted && d'.address == d.address && d'.rx == []
  {
    AnswersPlain(p, false);
    assert SkipStrings(d.rx) == d.rx;
    hide Packet, Write, Has, HandleResponse;
  }

  lemma LastSteps(st: Sys, p: seq<byte>, a: u16)
    requires Wf(st) && !st.d.halted && st.n == 1 && st.armed == Some(Tagged(p, 1)) && !st.status
    requires st.queue == [] && st.taken == [] && st.d.armed == [(0x80, p)]
    ensures var r := RunFrom(st, [FromPc(SlaveHost.Setup(0, SET_ADDRESS, a, 0, 0)), PcTakes, Done]);
      && r.Some?
      && r.value.d.address == a % 256 && r.value.d.armed == [(0x80, p)]
      && r.value.queue == [2] && r.value.n == 2 && r.value.taken == [Tagged(p, 1)]
  {
    var change := FromPc(SlaveHost.Setup(0, SET_ADDRESS, a, 0, 0));
    var s1 := Next(st, change);
    NextWf(st, change);
    var s2 := Next(s1, PcTakes);
    NextWf(s1, PcTakes);
    var s3 := Next(s2, Done);
    NextWf(s2, Done);
    Unrolls(st, change, [PcTakes, Done]);
    Unrolls(s1, PcTakes, [Done]);
    Unrolls(s2, Done, []);
    assert [change] + [PcTakes, Done] == [change, PcTakes, Done];
    assert [PcTakes] + [Done] == [PcTakes, Done] && [Done] + [] == [Done];
  }

  // ---------------------------------------------------------------- what the PC is given

  /** The packets offered to the PC on 0x80, in order. */
  function Offers(armed: seq<(byte, seq<byte>)>): seq<seq<byte>> {
    if armed == [] then []
    else
      var last := |armed| - 1;
      Offers(armed[..last]) + (if armed[last].0 == 0x80 then [armed[last].1] else [])
  }

  function DataOf(ts: seq<Tagged>): (ds: seq<seq<byte>>)
    ensures |ds| == |ts|
  {
    if ts == [] then [] else DataOf(ts[..|ts| - 1]) + [ts[|ts| - 1].data]
  }

  function Waiting(st: Sys): seq<seq<byte>> {
    if st.armed.Some? then [st.armed.value.data] else []
  }

  /** Packets taken, and offered, since `from`. */
  function Got(from: Sys, st: Sys): seq<seq<byte>>
    requires |from.taken| <= |st.taken|
  {
    DataOf(st.taken)[|from.taken|..]
  }

  function Offered(from: Sys, st: Sys): seq<seq<byte>>
    requires |Offers(from.d.armed)| <= |Offers(st.d.armed)|
  {
    Offers(st.d.armed)[|Offers(from.d.armed)|..]
  }

  /** Since `from`: every packet that waited or was offered has been taken, has been overwritten,
      or waits; and they have been taken in order, none left out, while none was overwritten. */
  predicate Accounted(from: Sys, st: Sys) {
    && |from.taken| <= |st.taken| && |Offers(from.d.armed)| <= |Offers(st.d.armed)| && from.lost <= st.lost
    && |Got(from, st)| + (st.lost - from.lost) + |Waiting(st)| == |Waiting(from)| + |Offered(from, st)|
    && (st.lost == from.lost ==> Got(from, st) + Waiting(st) == Waiting(from) + Offered(from, st))
  }

  lemma OffersAppend(armed: seq<(byte, seq<byte>)>, more: seq<(byte, seq<byte>)>)
    ensures Offers(armed + more) == Offers(armed) + Offers(more)
    decreases |more|
  {
    if more == [] {
      assert armed + more == armed;
    } else {
      var last := |more| - 1;
      OffersAppend(armed, more[..last]);
      assert (armed + more)[..|armed| + last] == armed + more[..last];
      Regroups(Offers(armed), Offers(more[..last]), if more[last].0 == 0x80 then [more[last].1] else []);
    }
  }

  lemma TakenAppend(ts: seq<Tagged>, t: Tagged)
    ensures DataOf(ts + [t]) == DataOf(ts) + [t.data]
  {
    assert (ts + [t])[..|ts|] == ts;
  }

  /** What one call of the handler arms: nothing, a packet, or a packet and the status of a read. */
  lemma ServeArms(d: Device)
    requires Sound(d)
    ensures var d' := SlaveEvent(d);
      || d'.armed == d.armed
      || (d.armed < d'.armed && d'.armed[|d.armed|].0 == 0x80
          && (d'.armed[|d.armed| + 1..] == [] || d'.armed[|d.armed| + 1..] == [(0x00, [])]))
  {
    hide Has, WalkFrom, Write;
  }

  /** An offer more: it waits, and what waited before it is lost. */
  lemma ArmsAccounted(from: Sys, st: Sys, st': Sys, t: Tagged, rest: seq<(byte, seq<byte>)>)
    requires Accounted(from, st)
    requires st'.d.armed == st.d.armed + ([(0x80, t.data)] + rest) && (rest == [] || rest == [(0x00, [])])
    requires st'.taken == st.taken && st'.armed == Some(t) && st'.lost == st.lost + if st.armed.Some? then 1 else 0
    ensures Accounted(from, st')
  {
    OffersAppend(st.d.armed, [(0x80, t.data)] + rest);
    OneOffer(t.data, rest);
    hide Offers, DataOf;
    DropAppend(Offers(st.d.armed), t.data, |Offers(from.d.armed)|);
    Regroups(Waiting(from), Offered(from, st), [t.data]);
    assert Got(from, st) + [] == Got(from, st);
  }

  lemma DropAppend(s: seq<seq<byte>>, x: seq<byte>, k: nat)
    requires k <= |s|
    ensures (s + [x])[k..] == s[k..] + [x]
  {
  }

  lemma TakesAccounted(from: Sys, st: Sys, st': Sys)
    requires Accounted(from, st) && st.armed.Some?
    requires st'.d.armed == st.d.armed && st'.lost == st.lost
    requires st'.taken == st.taken + [st.armed.value] && st'.armed.None?
    ensures Accounted(from, st')
  {
    TakenAppend(st.taken, st.armed.value);
    hide Offers, DataOf;
    DropAppend(DataOf(st.taken), st.armed.value.data, |from.taken|);
    assert Got(from, st') + [] == Got(from, st');
  }

  lemma StatusNoOffer()
    ensures Offers([(0x00, [])]) == []
  {
    var status: seq<(byte, seq<byte>)> := [(0x00, [])];
    assert status[..0] == [];
  }

  lemma OneOffer(p: seq<byte>, rest: seq<(byte, seq<byte>)>)
    requires rest == [] || rest == [(0x00, [])]
    ensures Offers([(0x80, p)] + rest) == [p]
  {
    OffersAppend([(0x80, p)], rest);
    StatusNoOffer();
    var none: seq<(byte, seq<byte>)> := [];
    assert Offers(none) == [] && [(0x80, p)][..0] == none;
  }

  /** No offer and nothing taken. */
  lemma SameAccounted(from: Sys, st: Sys, st': Sys)
    requires Accounted(from, st) && Offers(st'.d.armed) == Offers(st.d.armed)
    requires st'.taken == st.taken && st'.armed == st.armed && st'.lost == st.lost
    ensures Accounted(from, st')
  {
    hide Offers, DataOf;
  }

  lemma ServeAccounted(from: Sys, st: Sys)
    requires Wf(st) && Enabled(st, Serve) && Accounted(from, st)
    ensures Accounted(from, Next(st, Serve))
  {
    ServeArms(st.d);
    Serves(st);
    var d', st' := SlaveEvent(st.d), Next(st, Serve);
    if d'.armed != st.d.armed {
      ServeNotIdle(st);
      hide SlaveEvent, Accounted, IsAnswer, Has, Wf;
      var rest := d'.armed[|st.d.armed| + 1..];
      assert d'.armed == st.d.armed + ([d'.armed[|st.d.armed|]] + rest);
      ArmsAccounted(from, st, st', Tagged(d'.armed[|st.d.armed|].1, st.tags[0]), rest);
    } else {
      hide SlaveEvent, Accounted, Wf;
      SameAccounted(from, st, st');
    }
  }

  lemma SetupAccounted(from: Sys, st: Sys, su: Setup)
    requires Wf(st) && Enabled(st, FromPc(su)) && Accounted(from, st)
    ensures Accounted(from, Next(st, FromPc(su)))
  {
    hide Accounted, Offers, DataOf, SetupReceived, Sound, Known, Plain;
    SetupSound(st.d, su);
    var st' := Next(st, FromPc(su));
    if !GoesToSlave(su) && su.bRequest == 0x6 && su.wValue == 0x0600 {
      assert st.d.armed + [(0x80, [])] == st.d.armed + ([(0x80, [])] + []);
      ArmsAccounted(from, st, st', Tagged([], st.n + 1), []);
    } else {
      OffersAppend(st.d.armed, [(0x00, [])]);
      StatusNoOffer();
      assert Offers(st.d.armed) + [] == Offers(st.d.armed) && st.d.armed + [] == st.d.armed;
      SameAccounted(from, st, st');
    }
  }

  lemma StepAccounted(from: Sys, st: Sys, step: Step)
    requires Wf(st) && Enabled(st, step) && Accounted(from, st)
    ensures Accounted(from, Next(st, step))
  {
    hide Accounted, Offers, Wf, Packet;
    match step
    case Serve => ServeAccounted(from, st);
    case FromPc(su) => SetupAccounted(from, st, su);
    case PcTakes => TakesAccounted(from, st, Next(st, step));
    case _ =>
      assert Next(st, step).d.armed == st.d.armed;
      SameAccounted(from, st, Next(st, step));
  }

  lemma ServeNotIdle(st: Sys)
    requires Wf(st) && SlaveEvent(st.d).armed != st.d.armed
    ensures st.d.reading && st.d.rx != []
  {
  }

  lemma {:induction false} RunAccounted(from: Sys, st: Sys, steps: seq<Step>)
    requires Wf(st) && RunFrom(st, steps).Some? && Accounted(from, st)
    ensures Accounted(from, RunFrom(st, steps).value)
    decreases |steps|
  {
    if steps != [] {
      NextWf(st, steps[0]);
      StepAccounted(from, st, steps[0]);
      hide Next, Wf, Accounted, Enabled;
      RunAccounted(from, Next(st, steps[0]), steps[1..]);
    }
  }

  /** Over all runs: what the PC takes, with what waits for it in the end, is what waited at first
      and what was offered since, in order and complete, if and only if no packet was armed over
      one that still waited. */
  lemma PcTakesAllIff(st: Sys, steps: seq<Step>)
    requires Wf(st) && RunFrom(st, steps).Some?
    ensures var x := RunFrom(st, steps).value;
      && Accounted(st, x)
      && (Got(st, x) + Waiting(x) == Waiting(st) + Offered(st, x) <==> x.lost == st.lost)
  {
    assert Got(st, st) == [] && Offered(st, st) == [];
    assert Accounted(st, st);
    RunAccounted(st, st, steps);
  }
}
