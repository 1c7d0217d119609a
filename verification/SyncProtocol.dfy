/** The two boards, two cores each, as one step system (messages.c).

    Core 0 of a board enqueues into `tx` and dequeues from `rx`; core 1 runs `sync` for ever.
    A frame on the wire is one `Message` that the sender offers and the receiver takes: the
    sender's blocking write returns once the frame is taken. */
module SyncProtocol {
  import opened Common

  /** Size of the buffer core 1 receives into. */
  const BUFFER := 1025

  /** `malloc`ed payload copies by address, together with the record that points to them. */
  type Heap = map<nat, Message>

  datatype Board = Board(
    tx: seq<nat>, rx: seq<nat>,
    heap: Heap, nextPtr: nat, freed: seq<nat>,
    adding: Option<nat>,      // core 0 is inside the blocking add to `tx`
    held: Option<nat>,        // core 0 has dequeued this copy and not freed it yet
    enqueued: seq<Message>, dequeued: seq<Message>)

  datatype MasterPc =
    | MIdle                   // top of sync
    | MDrain                  // head of the loop over tx
    | MOffer(p: nat)          // waits for the slave's pin, then sends the copy
    | MSending(p: nat)        // the frame is on the wire
    | MQuery | MQuerySent     // the same two points for the data query
    | MCount                  // waits for the number of messages
    | MCollect(left: nat)     // head of the loop over rec_count
    | MAdd(left: nat, p: nat) // inside the blocking add to rx

  datatype SlavePc =
    | SListen                 // about to raise its pin
    | SRecv                   // pin raised, reading the wire
    | SLower(m: Message)      // frame read, pin still raised
    | SAdd(p: nat)            // inside the blocking add to rx
    | SCount                  // about to read the level of tx
    | SReply(left: byte)       // about to send that level
    | SReplying(left: byte)
    | SStream(left: byte)      // head of the loop over rec_count
    | SSending(left: byte, p: nat)

  datatype State = State(
    m: Board, s: Board, mpc: MasterPc, spc: SlavePc,
    toSlave: Option<Message>, toMaster: Option<Message>,
    waiting: bool, attached: bool)

  datatype Step =
    | Copy(role: Role, msg: Message) // core 0 copies a message it enqueues
    | Add(role: Role)                // ... and gets room in tx
    | Dequeue(role: Role)            // core 0 takes a message out of rx
    | Free(role: Role)               // ... and frees it
    | Attach(on: bool)               // a device comes or goes
    | Core1(role: Role)              // core 1 makes one move of sync

  function Load(h: Heap, p: nat): Message {
    if p in h then h[p] else Message(0, [])
  }

  function Loads(h: Heap, ps: seq<nat>): (ms: seq<Message>)
    ensures |ms| == |ps|
  {
    if ps == [] then [] else [Load(h, ps[0])] + Loads(h, ps[1..])
  }

  // ---------------------------------------------------------------- board operations

  /** First half of queue_add_with_copy: allocate and copy. */
  function Alloc(b: Board, m: Message): Board {
    b.(heap := b.heap[b.nextPtr := m], nextPtr := b.nextPtr + 1)
  }

  function Release(b: Board, p: nat): Board {
    b.(heap := b.heap - {p}, freed := b.freed + [p])
  }

  predicate Core0Enabled(b: Board, role: Role, step: Step) {
    match step
    case Copy(_, msg) =>
      b.adding.None? && |msg.payload| <= BUFFER && (role == Master ==> !IsQuery(msg))
    case Add(_) => b.adding.Some? && |b.tx| < CAPACITY
    case Dequeue(_) => b.held.None? && b.rx != []
    case Free(_) => b.held.Some?
    case _ => false
  }

  function Core0Move(b: Board, role: Role, step: Step): Board
    requires Core0Enabled(b, role, step)
  {
    match step
    case Copy(_, msg) => Alloc(b, msg).(adding := Some(b.nextPtr))
    case Add(_) =>
      var p := b.adding.value;
      b.(tx := b.tx + [p], adding := None, enqueued := b.enqueued + [Load(b.heap, p)])
    case Dequeue(_) =>
      var p := b.rx[0];
      b.(rx := b.rx[1..], held := Some(p), dequeued := b.dequeued + [Load(b.heap, p)])
    case Free(_) => Release(b, b.held.value).(held := None)
  }

  // ---------------------------------------------------------------- core 1

  predicate MasterEnabled(st: State) {
    match st.mpc
    case MIdle => true
    case MDrain => true
    case MOffer(_) => st.waiting
    case MSending(_) => st.toSlave.None?
    case MQuery => st.waiting
    case MQuerySent => st.toSlave.None?
    case MCount => st.toMaster.Some? && |st.toMaster.value.payload| == 1
    case MCollect(left) => left == 0 || st.toMaster.Some?
    case MAdd(_, _) => |st.m.rx| < CAPACITY
  }

  function MasterMove(st: State): State
    requires MasterEnabled(st)
  {
    match st.mpc
    case MIdle => if st.attached then st.(mpc := MDrain) else st
    case MDrain =>
      if st.m.tx == [] then st.(mpc := MQuery)
      else st.(m := st.m.(tx := st.m.tx[1..]), mpc := MOffer(st.m.tx[0]))
    case MOffer(p) => st.(toSlave := Some(Load(st.m.heap, p)), mpc := MSending(p))
    case MSending(p) => st.(m := Release(st.m, p), mpc := MDrain)
    case MQuery => st.(toSlave := Some(QUERY), mpc := MQuerySent)
    case MQuerySent => st.(mpc := MCount)
    case MCount => st.(toMaster := None, mpc := MCollect(st.toMaster.value.payload[0]))
    case MCollect(left) =>
      if left == 0 then st.(mpc := MIdle)
      else st.(toMaster := None, m := Alloc(st.m, st.toMaster.value), mpc := MAdd(left - 1, st.m.nextPtr))
    case MAdd(left, p) => st.(m := st.m.(rx := st.m.rx + [p]), mpc := MCollect(left))
  }

  predicate SlaveEnabled(st: State) {
    match st.spc
    case SListen => true
    case SRecv => st.toSlave.Some?
    case SLower(_) => true
    case SAdd(_) => |st.s.rx| < CAPACITY
    case SCount => true
    case SReply(_) => true
    case SReplying(_) => st.toMaster.None?
    case SStream(left) => left == 0 || st.s.tx != []
    case SSending(_, _) => st.toMaster.None?
  }

  function SlaveMove(st: State): State
    requires SlaveEnabled(st)
  {
    match st.spc
    case SListen => st.(waiting := true, spc := SRecv)
    case SRecv => st.(toSlave := None, spc := SLower(st.toSlave.value))
    case SLower(msg) =>
      if IsQuery(msg) then st.(waiting := false, spc := SCount)
      else st.(waiting := false, s := Alloc(st.s, msg), spc := SAdd(st.s.nextPtr))
    case SAdd(p) => st.(s := st.s.(rx := st.s.rx + [p]), spc := SListen)
    case SCount => st.(spc := SReply(|st.s.tx| % 256))
    case SReply(left) => st.(toMaster := Some(Message(0, [left])), spc := SReplying(left))
    case SReplying(left) => st.(spc := SStream(left))
    case SStream(left) =>
      if left == 0 then st.(spc := SListen)
      else
        var p := st.s.tx[0];
        st.(s := st.s.(tx := st.s.tx[1..]), toMaster := Some(Load(st.s.heap, p)), spc := SSending(left - 1, p))
    case SSending(left, p) => st.(s := Release(st.s, p), spc := SStream(left))
  }

  // ---------------------------------------------------------------- steps and runs

  predicate Enabled(st: State, step: Step) {
    match step
    case Attach(_) => true
    case Core1(Master) => MasterEnabled(st)
    case Core1(Slave) => SlaveEnabled(st)
    case _ => if step.role == Master then Core0Enabled(st.m, Master, step) else Core0Enabled(st.s, Slave, step)
  }

  function Next(st: State, step: Step): State
    requires Enabled(st, step)
  {
    match step
    case Attach(on) => st.(attached := on)
    case Core1(Master) => MasterMove(st)
    case Core1(Slave) => SlaveMove(st)
    case _ =>
      if step.role == Master then st.(m := Core0Move(st.m, Master, step))
      else st.(s := Core0Move(st.s, Slave, step))
  }

  const IDLE_BOARD := Board([], [], map[], 0, [], None, None, [], [])

  const INIT := State(IDLE_BOARD, IDLE_BOARD, MIdle, SListen, None, None, false, false)

  /** The state after a run, if every step of it was enabled. */
  function Run(steps: seq<Step>): Option<State> {
    if steps == [] then Some(INIT)
    else
      var last := |steps| - 1;
      match Run(steps[..last])
      case None => None
      case Some(st) => if Enabled(st, steps[last]) then Some(Next(st, steps[last])) else None
  }

  // ---------------------------------------------------------------- who holds a copy

  function One(o: Option<nat>, p: nat): nat {
    if o == Some(p) then 1 else 0
  }

  function MasterHolds(pc: MasterPc): Option<nat> {
    match pc
    case MOffer(p) => Some(p)
    case MSending(p) => Some(p)
    case MAdd(_, p) => Some(p)
    case _ => None
  }

  function SlaveHolds(pc: SlavePc): Option<nat> {
    match pc
    case SAdd(p) => Some(p)
    case SSending(_, p) => Some(p)
    case _ => None
  }

  function Count(q: seq<nat>, p: nat): nat {
    if q == [] then 0 else One(Some(q[0]), p) + Count(q[1..], p)
  }

  /** How many queue slots and threads hold the copy at address `p`. */
  function Holders(b: Board, core1: Option<nat>, p: nat): nat {
    Count(b.tx, p) + Count(b.rx, p) + One(b.adding, p) + One(b.held, p) + One(core1, p)
  }

  function Live(b: Board, p: nat): nat {
    if p in b.heap then 1 else 0
  }

  /** Every live copy has exactly one holder and nothing else is held; every copy ever made
      is live or has been freed exactly once. */
  ghost predicate Accounted(b: Board, core1: Option<nat>) {
    && (forall p: nat :: Holders(b, core1, p) == Live(b, p))
    && (forall p: nat :: Count(b.freed, p) + Live(b, p) == if p < b.nextPtr then 1 else 0)
  }

  ghost predicate Ownership(st: State) {
    && Accounted(st.m, MasterHolds(st.mpc))
    && Accounted(st.s, SlaveHolds(st.spc))
  }

  // ---------------------------------------------------------------- what is under way

  function Data(o: Option<Message>): seq<Message> {
    if o.Some? && !IsQuery(o.value) then [o.value] else []
  }

  /** Messages that have left the master's tx and not reached the slave's rx, oldest first. */
  function Down(st: State): seq<Message> {
    (match st.spc
     case SLower(m) => Data(Some(m))
     case SAdd(p) => [Load(st.s.heap, p)]
     case _ => [])
    + Data(st.toSlave)
    + (if st.mpc.MOffer? then [Load(st.m.heap, st.mpc.p)] else [])
  }

  /** Messages that have left the slave's tx and not reached the master's rx, oldest first. */
  function Up(st: State): seq<Message> {
    (if st.mpc.MAdd? then [Load(st.m.heap, st.mpc.p)] else [])
    + (if st.spc.SSending? && st.toMaster.Some? then [st.toMaster.value] else [])
  }

  /** Everything between core 0 of the master and core 0 of the slave, oldest first. */
  function DownPipe(st: State): seq<Message> {
    Loads(st.s.heap, st.s.rx) + (Down(st) + Loads(st.m.heap, st.m.tx))
  }

  function UpPipe(st: State): seq<Message> {
    Loads(st.m.heap, st.m.rx) + (Up(st) + Loads(st.s.heap, st.s.tx))
  }

  /** Nothing is lost, duplicated, reordered or altered in either direction. */
  ghost predicate Conservation(st: State) {
    && st.m.enqueued == st.s.dequeued + DownPipe(st)
    && st.s.enqueued == st.m.dequeued + UpPipe(st)
  }

  // ---------------------------------------------------------------- lockstep

  /** The slave has taken no query in this round, or has served the last one in full. */
  predicate Listening(pc: SlavePc) {
    match pc
    case SListen => true
    case SRecv => true
    case SLower(m) => !IsQuery(m)
    case SAdd(_) => true
    case _ => false
  }

  predicate Served(pc: SlavePc) {
    match pc
    case SReplying(left) => left == 0
    case SStream(left) => left == 0
    case SSending(left, _) => left == 0
    case _ => false
  }

  predicate Asked(pc: SlavePc) {
    match pc
    case SLower(m) => IsQuery(m)
    case SCount => true
    case SReply(_) => true
    case _ => false
  }

  /** The slave still owes exactly `n` messages of this round, counting one on the wire. */
  predicate Owes(st: State, n: nat) {
    match st.spc
    case SReplying(left) => left == n && st.toMaster.None?
    case SStream(left) => left == n && st.toMaster.None?
    case SSending(left, p) =>
      if st.toMaster.Some? then left + 1 == n && st.toMaster.value == Load(st.s.heap, p) else left == n
    case SListen => n == 0 && st.toMaster.None?
    case SRecv => n == 0 && st.toMaster.None?
    case _ => false
  }

  predicate Replied(st: State) {
    st.spc.SReplying? && st.toMaster == Some(Message(0, [st.spc.left]))
  }

  ghost predicate Lockstep(st: State) {
    && (st.waiting <==> st.spc.SRecv? || st.spc.SLower?)
    && (match st.mpc
        case MIdle => st.toSlave.None? && st.toMaster.None? && (Listening(st.spc) || Served(st.spc))
        case MDrain => st.toSlave.None? && st.toMaster.None? && (Listening(st.spc) || Served(st.spc))
        case MOffer(_) => st.toSlave.None? && st.toMaster.None? && (Listening(st.spc) || Served(st.spc))
        case MQuery => st.toSlave.None? && st.toMaster.None? && (Listening(st.spc) || Served(st.spc))
        case MSending(_) =>
          && st.toMaster.None? && Listening(st.spc)
          && (st.toSlave.Some? ==> !IsQuery(st.toSlave.value))
        case MQuerySent =>
          if st.toSlave.Some? then st.toSlave == Some(QUERY) && st.toMaster.None? && Listening(st.spc)
          else (Asked(st.spc) && st.toMaster.None?) || Replied(st)
        case MCount => st.toSlave.None? && ((Asked(st.spc) && st.toMaster.None?) || Replied(st))
        case MCollect(left) => st.toSlave.None? && Owes(st, left)
        case MAdd(left, _) => st.toSlave.None? && Owes(st, left))
  }

  /** Queues stay within capacity and copies within the receive buffer. */
  ghost predicate BoardBounds(b: Board) {
    && |b.tx| <= CAPACITY && |b.rx| <= CAPACITY
    && (forall p | p in b.heap :: |b.heap[p].payload| <= BUFFER)
  }

  /** The master never queues a query of its own. */
  ghost predicate NoQuery(st: State) {
    forall p | p in st.m.tx || st.m.adding == Some(p) || st.mpc == MOffer(p) :: !IsQuery(Load(st.m.heap, p))
  }

  /** Moreover every frame fits the receive buffer, and the slave never has to wait for a
      message it has announced. */
  ghost predicate Bounds(st: State) {
    && BoardBounds(st.m) && BoardBounds(st.s) && NoQuery(st)
    && (st.toSlave.Some? ==> |st.toSlave.value.payload| <= BUFFER)
    && (st.toMaster.Some? ==> |st.toMaster.value.payload| <= BUFFER)
    && (st.spc.SLower? ==> |st.spc.m.payload| <= BUFFER)
    && (st.spc.SReply? || st.spc.SReplying? || st.spc.SStream? || st.spc.SSending? ==> st.spc.left <= |st.s.tx|)
  }

  ghost predicate Inv(st: State) {
    Ownership(st) && Conservation(st) && Lockstep(st) && Bounds(st)
  }
}
