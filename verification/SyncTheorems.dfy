/** What every run of the two boards keeps (messages.c). */
module SyncTheorems {
  import opened Common
  import opened SyncProtocol

  lemma LoadsSnoc(h: Heap, q: seq<nat>, p: nat)
    ensures Loads(h, q + [p]) == Loads(h, q) + [Load(h, p)]
  {
    if q == [] {
      assert q + [p] == [p];
    } else {
      assert (q + [p])[1..] == q[1..] + [p];
      LoadsSnoc(h, q[1..], p);
    }
  }

  lemma LoadsFrame(h: Heap, h': Heap, q: seq<nat>)
    requires forall p | p in q :: Load(h, p) == Load(h', p)
    ensures Loads(h, q) == Loads(h', q)
  {
  }

  lemma CountSnoc(q: seq<nat>, x: nat)
    ensures forall p: nat :: Count(q + [x], p) == Count(q, p) + One(Some(x), p)
  {
    forall p: nat ensures Count(q + [x], p) == Count(q, p) + One(Some(x), p) {
      CountSnocAt(q, x, p);
    }
  }

  lemma CountSnocAt(q: seq<nat>, x: nat, p: nat)
    ensures Count(q + [x], p) == Count(q, p) + One(Some(x), p)
  {
    if q == [] {
      assert q + [x] == [x];
    } else {
      assert (q + [x])[1..] == q[1..] + [x];
      CountSnocAt(q[1..], x, p);
    }
  }

  lemma CountMember(q: seq<nat>, p: nat)
    requires p in q
    ensures Count(q, p) > 0
  {
  }

  lemma Counted(b: Board, core1: Option<nat>)
    requires Accounted(b, core1)
    ensures b.nextPtr !in b.heap
    ensures forall p | Holders(b, core1, p) > 0 :: p in b.heap
  {
    assert Count(b.freed, b.nextPtr) + Live(b, b.nextPtr) == 0;
    forall p | Holders(b, core1, p) > 0 ensures p in b.heap {
      assert Live(b, p) == 1;
    }
  }

  /** Allocation adds one live copy without a holder yet and alters no held copy. */
  lemma AllocKeeps(b: Board, m: Message, core1: Option<nat>)
    requires Accounted(b, core1)
    ensures forall p: nat :: Holders(b, core1, p) + One(Some(b.nextPtr), p) == Live(Alloc(b, m), p)
    ensures forall p: nat ::
      Count(b.freed, p) + Live(Alloc(b, m), p) == if p < b.nextPtr + 1 then 1 else 0
    ensures forall p | Holders(b, core1, p) > 0 :: Load(Alloc(b, m).heap, p) == Load(b.heap, p)
    ensures Loads(Alloc(b, m).heap, b.tx) == Loads(b.heap, b.tx)
    ensures Loads(Alloc(b, m).heap, b.rx) == Loads(b.heap, b.rx)
  {
    Counted(b, core1);
    var b' := Alloc(b, m);
    forall p: nat
      ensures Holders(b, core1, p) + One(Some(b.nextPtr), p) == Live(b', p)
      ensures Count(b.freed, p) + Live(b', p) == if p < b.nextPtr + 1 then 1 else 0
    {
      assert Holders(b, core1, p) == Live(b, p);
      assert Count(b.freed, p) + Live(b, p) == if p < b.nextPtr then 1 else 0;
    }
    forall p | p in b.tx || p in b.rx ensures Load(b'.heap, p) == Load(b.heap, p) {
      if p in b.tx { CountMember(b.tx, p); } else { CountMember(b.rx, p); }
      assert Holders(b, core1, p) > 0;
    }
    LoadsFrame(b.heap, b'.heap, b.tx);
    LoadsFrame(b.heap, b'.heap, b.rx);
  }

  /** A thread that frees the copy it holds frees a live one, and alters no other held copy. */
  lemma ReleaseKeeps(b: Board, p: nat, core1: Option<nat>)
    requires Accounted(b, core1)
    requires b.held == Some(p) || core1 == Some(p)
    ensures p in b.heap
    ensures forall q: nat :: Holders(b, core1, q) - One(Some(p), q) == Live(Release(b, p), q)
    ensures forall q: nat ::
      Count(Release(b, p).freed, q) + Live(Release(b, p), q) == if q < b.nextPtr then 1 else 0
    ensures forall q | Holders(b, core1, q) > 0 && q != p :: Load(Release(b, p).heap, q) == Load(b.heap, q)
    ensures Loads(Release(b, p).heap, b.tx) == Loads(b.heap, b.tx)
    ensures Loads(Release(b, p).heap, b.rx) == Loads(b.heap, b.rx)
  {
    Counted(b, core1);
    assert Holders(b, core1, p) > 0;
    var b' := Release(b, p);
    CountSnoc(b.freed, p);
    forall q: nat
      ensures Holders(b, core1, q) - One(Some(p), q) == Live(b', q)
      ensures Count(b'.freed, q) + Live(b', q) == if q < b.nextPtr then 1 else 0
    {
      assert Holders(b, core1, q) == Live(b, q);
      assert Count(b.freed, q) + Live(b, q) == if q < b.nextPtr then 1 else 0;
    }
    forall q | q in b.tx || q in b.rx ensures Load(b'.heap, q) == Load(b.heap, q) {
      if q in b.tx { CountMember(b.tx, q); } else { CountMember(b.rx, q); }
      assert Holders(b, core1, q) == Live(b, q);
    }
    LoadsFrame(b.heap, b'.heap, b.tx);
    LoadsFrame(b.heap, b'.heap, b.rx);
  }

  // ---------------------------------------------------------------- one step at a time

  lemma CopyAccounted(b: Board, core1: Option<nat>, msg: Message)
    requires Accounted(b, core1) && b.adding.None?
    ensures Accounted(Alloc(b, msg).(adding := Some(b.nextPtr)), core1)
  {
    var b' := Alloc(b, msg).(adding := Some(b.nextPtr));
    AllocKeeps(b, msg, core1);
    assert forall p: nat :: Holders(b', core1, p) == Holders(b, core1, p) + One(Some(b.nextPtr), p);
  }

  lemma FreeAccounted(b: Board, core1: Option<nat>)
    requires Accounted(b, core1) && b.held.Some?
    ensures Accounted(Release(b, b.held.value).(held := None), core1)
  {
    var b' := Release(b, b.held.value).(held := None);
    ReleaseKeeps(b, b.held.value, core1);
    assert forall p: nat :: Holders(b', core1, p) == Holders(b, core1, p) - One(b.held, p);
  }

  lemma MovesAccounted(b: Board, b': Board, core1: Option<nat>)
    requires Accounted(b, core1) && b'.heap == b.heap && b'.freed == b.freed && b'.nextPtr == b.nextPtr
    requires forall p: nat :: Holders(b', core1, p) == Holders(b, core1, p)
    ensures Accounted(b', core1)
  {
    assert forall p: nat :: Live(b', p) == Live(b, p);
  }

  lemma Core0Accounted(b: Board, core1: Option<nat>, role: Role, step: Step)
    requires Accounted(b, core1) && Core0Enabled(b, role, step)
    ensures Accounted(Core0Move(b, role, step), core1)
  {
    hide Accounted;
    match step
    case Copy(_, msg) => CopyAccounted(b, core1, msg);
    case Add(_) =>
      CountSnoc(b.tx, b.adding.value);
      MovesAccounted(b, Core0Move(b, role, step), core1);
    case Dequeue(_) => MovesAccounted(b, Core0Move(b, role, step), core1);
    case Free(_) => FreeAccounted(b, core1);
  }

  lemma PopHeld(b: Board)
    requires Accounted(b, None) && b.tx != []
    ensures Accounted(b.(tx := b.tx[1..]), Some(b.tx[0]))
  {
    var b' := b.(tx := b.tx[1..]);
    assert forall p: nat :: Holders(b', Some(b.tx[0]), p) == Holders(b, None, p);
    assert forall p: nat :: Live(b', p) == Live(b, p);
  }

  lemma PushHeld(b: Board, p: nat)
    requires Accounted(b, Some(p))
    ensures Accounted(b.(rx := b.rx + [p]), None)
  {
    var b' := b.(rx := b.rx + [p]);
    CountSnoc(b.rx, p);
    assert forall q: nat :: Holders(b', None, q) == Holders(b, Some(p), q);
    assert forall q: nat :: Live(b', q) == Live(b, q);
  }

  lemma AllocHeld(b: Board, m: Message)
    requires Accounted(b, None)
    ensures Accounted(Alloc(b, m), Some(b.nextPtr))
  {
    AllocKeeps(b, m, None);
    assert forall q: nat :: Holders(Alloc(b, m), Some(b.nextPtr), q) == Holders(b, None, q) + One(Some(b.nextPtr), q);
  }

  lemma ReleaseHeld(b: Board, p: nat)
    requires Accounted(b, Some(p))
    ensures Accounted(Release(b, p), None)
  {
    ReleaseKeeps(b, p, Some(p));
    assert forall q: nat :: Holders(Release(b, p), None, q) == Holders(b, Some(p), q) - One(Some(p), q);
  }

  lemma MasterAccounted(st: State)
    requires Accounted(st.m, MasterHolds(st.mpc)) && MasterEnabled(st)
    ensures Accounted(MasterMove(st).m, MasterHolds(MasterMove(st).mpc))
  {
    hide Accounted;
    match st.mpc
    case MDrain => if st.m.tx != [] { PopHeld(st.m); }
    case MSending(p) => ReleaseHeld(st.m, p);
    case MCollect(left) => if left > 0 { AllocHeld(st.m, st.toMaster.value); }
    case MAdd(_, p) => PushHeld(st.m, p);
    case _ =>
  }

  lemma SlaveAccounted(st: State)
    requires Accounted(st.s, SlaveHolds(st.spc)) && SlaveEnabled(st)
    ensures Accounted(SlaveMove(st).s, SlaveHolds(SlaveMove(st).spc))
  {
    hide Accounted;
    match st.spc
    case SLower(msg) => if !IsQuery(msg) { AllocHeld(st.s, msg); }
    case SAdd(p) => PushHeld(st.s, p);
    case SStream(left) => if left > 0 { PopHeld(st.s); }
    case SSending(_, p) => ReleaseHeld(st.s, p);
    case _ =>
  }

  lemma OwnershipKept(st: State, step: Step)
    requires Ownership(st) && Enabled(st, step)
    ensures Ownership(Next(st, step))
  {
    hide Accounted;
    match step
    case Attach(_) =>
    case Core1(Master) => MasterAccounted(st);
    case Core1(Slave) => SlaveAccounted(st);
    case _ =>
      if step.role == Master {
        Core0Accounted(st.m, MasterHolds(st.mpc), Master, step);
      } else {
        Core0Accounted(st.s, SlaveHolds(st.spc), Slave, step);
      }
  }

  /** The copy core 1 of a board holds is the same after any step of its core 0. */
  lemma Core0Loads(b: Board, core1: Option<nat>, role: Role, step: Step)
    requires Accounted(b, core1) && Core0Enabled(b, role, step)
    ensures core1.Some? ==> Load(Core0Move(b, role, step).heap, core1.value) == Load(b.heap, core1.value)
    ensures !step.Add? ==> Loads(Core0Move(b, role, step).heap, b.tx) == Loads(b.heap, b.tx)
    ensures Loads(Core0Move(b, role, step).heap, b.rx) == Loads(b.heap, b.rx)
    ensures step.Copy? ==> forall p | p in b.tx :: Load(Core0Move(b, role, step).heap, p) == Load(b.heap, p)
    ensures step.Copy? ==> Core0Move(b, role, step).heap[b.nextPtr] == step.msg
  {
    match step
    case Copy(_, msg) =>
      AllocKeeps(b, msg, core1);
      forall p | p in b.tx ensures Load(Core0Move(b, role, step).heap, p) == Load(b.heap, p) {
        CountMember(b.tx, p);
      }
    case Free(_) =>
      ReleaseKeeps(b, b.held.value, core1);
      if core1.Some? {
        assert Holders(b, core1, core1.value) == Live(b, core1.value);
      }
    case _ =>
  }

  lemma MasterLockstep(st: State)
    requires Lockstep(st) && Bounds(st) && MasterEnabled(st)
    ensures Lockstep(MasterMove(st))
  {
    match st.mpc
    case MOffer(p) => assert !IsQuery(Load(st.m.heap, p));
    case _ =>
  }

  lemma SlaveLockstep(st: State)
    requires Lockstep(st) && Bounds(st) && SlaveEnabled(st)
    ensures Lockstep(SlaveMove(st))
  {
    match st.mpc
    case MCollect(left) => assert Owes(SlaveMove(st), left);
    case MAdd(left, _) => assert Owes(SlaveMove(st), left);
    case _ =>
  }

  lemma Core0Lockstep(st: State, step: Step)
    requires Ownership(st) && Lockstep(st) && Enabled(st, step) && !step.Attach? && !step.Core1?
    ensures Lockstep(Next(st, step))
  {
    hide Accounted, IsQuery, Load;
    if step.role == Slave {
      Core0Loads(st.s, SlaveHolds(st.spc), Slave, step);
    }
    hide Core0Enabled, Core0Move, Loads;
  }

  lemma LockstepKept(st: State, step: Step)
    requires Inv(st) && Enabled(st, step)
    ensures Lockstep(Next(st, step))
  {
    hide Ownership, Conservation, Lockstep, Bounds;
    match step
    case Attach(on) => AttachLockstep(st, on);
    case Core1(Master) => MasterLockstep(st);
    case Core1(Slave) => SlaveLockstep(st);
    case _ => Core0Lockstep(st, step);
  }

  lemma AttachLockstep(st: State, on: bool)
    requires Lockstep(st)
    ensures Lockstep(st.(attached := on))
  {
  }

  lemma Core0Bounds(b: Board, role: Role, step: Step)
    requires BoardBounds(b) && Core0Enabled(b, role, step)
    ensures BoardBounds(Core0Move(b, role, step))
    ensures |Core0Move(b, role, step).tx| >= |b.tx|
  {
  }

  lemma Core0NoQuery(st: State, step: Step)
    requires Accounted(st.m, MasterHolds(st.mpc)) && NoQuery(st) && Core0Enabled(st.m, Master, step)
    ensures NoQuery(st.(m := Core0Move(st.m, Master, step)))
  {
    var c := MasterHolds(st.mpc);
    Counted(st.m, c);
    var m' := Core0Move(st.m, Master, step);
    forall p | p in m'.tx || m'.adding == Some(p) || st.mpc == MOffer(p) ensures !IsQuery(Load(m'.heap, p)) {
      if p in st.m.tx { CountMember(st.m.tx, p); }
      assert Holders(st.m, c, p) == Live(st.m, p);
    }
  }

  lemma MasterNoQuery(st: State)
    requires Accounted(st.m, MasterHolds(st.mpc)) && NoQuery(st) && MasterEnabled(st)
    ensures NoQuery(MasterMove(st))
  {
    var c := MasterHolds(st.mpc);
    Counted(st.m, c);
    var st' := MasterMove(st);
    forall p | p in st'.m.tx || st'.m.adding == Some(p) || st'.mpc == MOffer(p)
      ensures !IsQuery(Load(st'.m.heap, p))
    {
      if p in st.m.tx { CountMember(st.m.tx, p); }
      assert Holders(st.m, c, p) == Live(st.m, p);
    }
  }

  lemma MasterBounds(st: State)
    requires Ownership(st) && Bounds(st) && MasterEnabled(st)
    ensures Bounds(MasterMove(st))
  {
    hide NoQuery, Accounted, IsQuery;
    MasterNoQuery(st);
  }

  lemma SlaveBounds(st: State)
    requires Bounds(st) && Lockstep(st) && SlaveEnabled(st)
    ensures Bounds(SlaveMove(st))
  {
  }

  lemma Core0KeepsBounds(st: State, step: Step)
    requires Ownership(st) && Bounds(st) && Enabled(st, step) && !step.Attach? && !step.Core1?
    ensures Bounds(Next(st, step))
  {
    hide Accounted, BoardBounds, NoQuery, Core0Move, Core0Enabled;
    if step.role == Master {
      Core0Bounds(st.m, Master, step);
      Core0NoQuery(st, step);
    } else {
      Core0Bounds(st.s, Slave, step);
      SlaveNoQuery(st, Next(st, step));
    }
  }

  lemma BoundsKept(st: State, step: Step)
    requires Inv(st) && Enabled(st, step)
    ensures Bounds(Next(st, step))
  {
    hide Ownership, Conservation, Lockstep, Bounds, MasterMove, SlaveMove, MasterEnabled, SlaveEnabled;
    match step
    case Attach(on) => AttachBounds(st, on);
    case Core1(Master) => MasterBounds(st);
    case Core1(Slave) => SlaveBounds(st);
    case _ => Core0KeepsBounds(st, step);
  }

  lemma AttachBounds(st: State, on: bool)
    requires Bounds(st)
    ensures Bounds(st.(attached := on))
  {
    hide BoardBounds, NoQuery;
    SlaveNoQuery(st, st.(attached := on));
  }

  lemma SlaveNoQuery(st: State, st': State)
    requires NoQuery(st) && st'.m == st.m && st'.mpc == st.mpc
    ensures NoQuery(st')
  {
  }

  /** Core 0 moves a message from the rx end of a pipe into its history ... */
  lemma Core0Takes(b: Board, core1: Option<nat>, role: Role, step: Step, rest: seq<Message>)
    requires Accounted(b, core1) && Core0Enabled(b, role, step)
    ensures var b' := Core0Move(b, role, step);
      b'.dequeued + (Loads(b'.heap, b'.rx) + rest) == b.dequeued + (Loads(b.heap, b.rx) + rest)
  {
    Core0Loads(b, core1, role, step);
    if step.Dequeue? {
      assert Loads(b.heap, b.rx) == [Load(b.heap, b.rx[0])] + Loads(b.heap, b.rx[1..]);
    }
  }

  /** ... or a new one into both its history and the tx end of the other. */
  lemma Core0Gives(b: Board, core1: Option<nat>, role: Role, step: Step,
                   a: seq<Message>, c: seq<Message>, d: seq<Message>)
    requires Accounted(b, core1) && Core0Enabled(b, role, step)
    requires b.enqueued == a + (c + (d + Loads(b.heap, b.tx)))
    ensures var b' := Core0Move(b, role, step); b'.enqueued == a + (c + (d + Loads(b'.heap, b'.tx)))
  {
    Core0Loads(b, core1, role, step);
    if step.Add? {
      LoadsSnoc(b.heap, b.tx, b.adding.value);
    }
  }

  lemma Core0Conserves(st: State, step: Step)
    requires Ownership(st) && Conservation(st) && Enabled(st, step) && !step.Attach? && !step.Core1?
    ensures Conservation(Next(st, step))
  {
    hide Accounted, Loads, Load;
    var st' := Next(st, step);
    if step.role == Master {
      var c := MasterHolds(st.mpc);
      Core0Loads(st.m, c, Master, step);
      Core0Takes(st.m, c, Master, step, Up(st) + Loads(st.s.heap, st.s.tx));
      Core0Gives(st.m, c, Master, step, st.s.dequeued, Loads(st.s.heap, st.s.rx), Down(st));
    } else {
      var c := SlaveHolds(st.spc);
      Core0Loads(st.s, c, Slave, step);
      Core0Takes(st.s, c, Slave, step, Down(st) + Loads(st.m.heap, st.m.tx));
      Core0Gives(st.s, c, Slave, step, st.m.dequeued, Loads(st.m.heap, st.m.rx), Up(st));
    }
    assert Down(st') == Down(st) && Up(st') == Up(st);
  }

  /** The queues of a board look the same to both pipes after any move of its core 1. */
  lemma MasterQueues(st: State)
    requires Accounted(st.m, MasterHolds(st.mpc)) && MasterEnabled(st)
    ensures Loads(MasterMove(st).m.heap, st.m.rx) == Loads(st.m.heap, st.m.rx)
    ensures Loads(MasterMove(st).m.heap, st.m.tx) == Loads(st.m.heap, st.m.tx)
  {
    match st.mpc
    case MSending(p) => ReleaseKeeps(st.m, p, Some(p));
    case MCollect(left) => if left > 0 { AllocKeeps(st.m, st.toMaster.value, None); }
    case _ =>
  }

  lemma SlaveQueues(st: State)
    requires Accounted(st.s, SlaveHolds(st.spc)) && SlaveEnabled(st)
    ensures Loads(SlaveMove(st).s.heap, st.s.rx) == Loads(st.s.heap, st.s.rx)
    ensures Loads(SlaveMove(st).s.heap, st.s.tx) == Loads(st.s.heap, st.s.tx)
  {
    match st.spc
    case SSending(_, p) => ReleaseKeeps(st.s, p, Some(p));
    case SLower(msg) => if !IsQuery(msg) { AllocKeeps(st.s, msg, None); }
    case _ =>
  }

  /** What a move of the master's core 1 does to the messages under way. */
  lemma MasterUnderWay(st: State)
    requires Lockstep(st) && NoQuery(st) && MasterEnabled(st)
    ensures Down(MasterMove(st)) ==
      Down(st) + (if st.mpc.MDrain? && st.m.tx != [] then [Load(st.m.heap, st.m.tx[0])] else [])
    ensures Up(st) ==
      (if st.mpc.MAdd? then [Load(st.m.heap, st.mpc.p)] else []) + Up(MasterMove(st))
  {
  }

  lemma SlaveUnderWay(st: State)
    requires Lockstep(st) && SlaveEnabled(st)
    ensures Down(st) ==
      (if st.spc.SAdd? then [Load(st.s.heap, st.spc.p)] else []) + Down(SlaveMove(st))
    ensures Up(SlaveMove(st)) ==
      Up(st) + (if st.spc.SStream? && st.spc.left > 0 then [Load(st.s.heap, st.s.tx[0])] else [])
  {
  }

  /** A message that moves from the queue behind a pipe into the pipe, or out of it into the
      queue in front, does not change what the three hold together. */
  lemma Enters(front: seq<Message>, mid: seq<Message>, x: seq<Message>, back: seq<Message>)
    ensures front + ((mid + x) + back) == front + (mid + (x + back))
  {
    assert (mid + x) + back == mid + (x + back);
  }

  lemma Leaves(front: seq<Message>, x: seq<Message>, mid: seq<Message>, back: seq<Message>)
    ensures (front + x) + (mid + back) == front + ((x + mid) + back)
  {
    assert (x + mid) + back == x + (mid + back);
  }

  lemma LoadsHead(h: Heap, q: seq<nat>)
    requires q != []
    ensures Loads(h, q) == [Load(h, q[0])] + Loads(h, q[1..])
  {
  }

  /** What a move of the master's core 1 takes from its tx and adds to its rx. */
  lemma MasterShifts(st: State)
    requires Accounted(st.m, MasterHolds(st.mpc)) && MasterEnabled(st)
    ensures var st' := MasterMove(st);
      && Loads(st.m.heap, st.m.tx) ==
           (if st.mpc.MDrain? && st.m.tx != [] then [Load(st.m.heap, st.m.tx[0])] else []) + Loads(st'.m.heap, st'.m.tx)
      && Loads(st'.m.heap, st'.m.rx) ==
           Loads(st.m.heap, st.m.rx) + (if st.mpc.MAdd? then [Load(st.m.heap, st.mpc.p)] else [])
      && st'.s == st.s && st'.m.enqueued == st.m.enqueued && st'.m.dequeued == st.m.dequeued
  {
    hide Accounted, Load, Loads, IsQuery;
    MasterQueues(st);
    if st.mpc.MAdd? { LoadsSnoc(st.m.heap, st.m.rx, st.mpc.p); }
    if st.m.tx != [] { LoadsHead(st.m.heap, st.m.tx); }
  }

  lemma SlaveShifts(st: State)
    requires Accounted(st.s, SlaveHolds(st.spc)) && SlaveEnabled(st)
    ensures var st' := SlaveMove(st);
      && Loads(st.s.heap, st.s.tx) ==
           (if st.spc.SStream? && st.spc.left > 0 then [Load(st.s.heap, st.s.tx[0])] else [])
           + Loads(st'.s.heap, st'.s.tx)
      && Loads(st'.s.heap, st'.s.rx) ==
           Loads(st.s.heap, st.s.rx) + (if st.spc.SAdd? then [Load(st.s.heap, st.spc.p)] else [])
      && st'.m == st.m && st'.s.enqueued == st.s.enqueued && st'.s.dequeued == st.s.dequeued
  {
    hide Accounted, Load, Loads, IsQuery;
    SlaveQueues(st);
    if st.spc.SAdd? { LoadsSnoc(st.s.heap, st.s.rx, st.spc.p); }
    if st.s.tx != [] { LoadsHead(st.s.heap, st.s.tx); }
  }

  lemma MasterConserves(st: State)
    requires Ownership(st) && Lockstep(st) && NoQuery(st) && MasterEnabled(st)
    ensures DownPipe(MasterMove(st)) == DownPipe(st) && UpPipe(MasterMove(st)) == UpPipe(st)
    ensures Conservation(MasterMove(st)) <==> Conservation(st)
  {
    hide Accounted, Lockstep, NoQuery, MasterEnabled, MasterMove, Loads, Load, Down, Up;
    MasterShifts(st);
    MasterUnderWay(st);
    var st' := MasterMove(st);
    var popped := if st.mpc.MDrain? && st.m.tx != [] then [Load(st.m.heap, st.m.tx[0])] else [];
    var pushed := if st.mpc.MAdd? then [Load(st.m.heap, st.mpc.p)] else [];
    Enters(Loads(st.s.heap, st.s.rx), Down(st), popped, Loads(st'.m.heap, st'.m.tx));
    Leaves(Loads(st.m.heap, st.m.rx), pushed, Up(st'), Loads(st.s.heap, st.s.tx));
  }

  lemma SlaveConserves(st: State)
    requires Ownership(st) && Lockstep(st) && SlaveEnabled(st)
    ensures DownPipe(SlaveMove(st)) == DownPipe(st) && UpPipe(SlaveMove(st)) == UpPipe(st)
    ensures Conservation(SlaveMove(st)) <==> Conservation(st)
  {
    hide Accounted, Lockstep, SlaveEnabled, SlaveMove, Loads, Load, Down, Up;
    SlaveShifts(st);
    SlaveUnderWay(st);
    var st' := SlaveMove(st);
    var popped := if st.spc.SStream? && st.spc.left > 0 then [Load(st.s.heap, st.s.tx[0])] else [];
    var pushed := if st.spc.SAdd? then [Load(st.s.heap, st.spc.p)] else [];
    Enters(Loads(st.m.heap, st.m.rx), Up(st), popped, Loads(st'.s.heap, st'.s.tx));
    Leaves(Loads(st.s.heap, st.s.rx), pushed, Down(st'), Loads(st.m.heap, st.m.tx));
  }

  lemma ConservationKept(st: State, step: Step)
    requires Inv(st) && Enabled(st, step)
    ensures Conservation(Next(st, step))
  {
    match step
    case Attach(_) =>
      hide Accounted;
      hide Bounds;
      hide Lockstep;
    case Core1(Master) =>
      MasterConserves(st);
    case Core1(Slave) =>
      SlaveConserves(st);
    case _ => Core0Conserves(st, step);
  }

  // ---------------------------------------------------------------- every run

  lemma InitInv()
    ensures Inv(INIT)
  {
  }

  /** Every state of every run, in any interleaving of the four cores, satisfies `Inv`. */
  lemma {:induction false} RunKeeps(steps: seq<Step>)
    requires Run(steps).Some?
    ensures Inv(Run(steps).value)
  {
    if steps == [] {
      InitInv();
    } else {
      var last := |steps| - 1;
      RunKeeps(steps[..last]);
      var st := Run(steps[..last]).value;
      OwnershipKept(st, steps[last]);
      ConservationKept(st, steps[last]);
      LockstepKept(st, steps[last]);
      BoundsKept(st, steps[last]);
    }
  }

  /** What a board has dequeued is a prefix of what the other has enqueued, and all of it once
      the queues are empty and nothing is under way. */
  lemma DeliveredInOrder(steps: seq<Step>)
    requires Run(steps).Some?
    ensures var st := Run(steps).value;
      && st.s.dequeued <= st.m.enqueued && st.m.dequeued <= st.s.enqueued
      && (st.s.rx == [] && st.m.tx == [] && Down(st) == [] ==> st.s.dequeued == st.m.enqueued)
      && (st.m.rx == [] && st.s.tx == [] && Up(st) == [] ==> st.m.dequeued == st.s.enqueued)
  {
    RunKeeps(steps);
  }

  /** A live copy has one holder and has never been freed; any other address ever handed out
      has been freed exactly once and nobody holds it. */
  lemma FreedExactlyOnce(steps: seq<Step>, p: nat)
    requires Run(steps).Some?
    ensures var st := Run(steps).value;
      && Holders(st.m, MasterHolds(st.mpc), p) == (if p in st.m.heap then 1 else 0)
      && Count(st.m.freed, p) == (if p < st.m.nextPtr && p !in st.m.heap then 1 else 0)
      && Holders(st.s, SlaveHolds(st.spc), p) == (if p in st.s.heap then 1 else 0)
      && Count(st.s.freed, p) == (if p < st.s.nextPtr && p !in st.s.heap then 1 else 0)
  {
    RunKeeps(steps);
    var st := Run(steps).value;
    assert Holders(st.m, MasterHolds(st.mpc), p) == Live(st.m, p);
    assert Holders(st.s, SlaveHolds(st.spc), p) == Live(st.s, p);
    assert Count(st.m.freed, p) + Live(st.m, p) == if p < st.m.nextPtr then 1 else 0;
    assert Count(st.s.freed, p) + Live(st.s, p) == if p < st.s.nextPtr then 1 else 0;
  }

  predicate MasterReceives(st: State) { st.mpc.MCount? || (st.mpc.MCollect? && st.mpc.left > 0) }

  /** The two loops never wait for each other's frame at once, never have frames of both
      directions on the wire, agree on how many messages are still to come, never trip the
      master's assertion on the count, and every frame fits the receive buffer. */
  lemma LoopsAgree(steps: seq<Step>)
    requires Run(steps).Some?
    ensures var st := Run(steps).value;
      && !(MasterReceives(st) && st.spc.SRecv?)
      && !(st.toSlave.Some? && st.toMaster.Some?)
      && (st.mpc.MCollect? || st.mpc.MAdd? ==> Owes(st, st.mpc.left))
      && (st.mpc.MCount? && st.toMaster.Some? ==> |st.toMaster.value.payload| == 1)
      && (st.toSlave.Some? ==> |st.toSlave.value.payload| <= 1025)
      && (st.toMaster.Some? ==> |st.toMaster.value.payload| <= 1025)
  {
    RunKeeps(steps);
  }

  /** Core 1 of some board can make a move that changes the state. */
  predicate CanMove(st: State) {
    || (MasterEnabled(st) && MasterMove(st) != st)
    || (SlaveEnabled(st) && SlaveMove(st) != st)
  }

  /** No deadlock: the loops stop only for want of a device or of room in an rx queue. */
  lemma NoDeadlock(steps: seq<Step>)
    requires Run(steps).Some? && !CanMove(Run(steps).value)
    ensures var st := Run(steps).value;
      || (st.mpc.MIdle? && !st.attached)
      || (st.mpc.MAdd? && |st.m.rx| == 20)
      || (st.spc.SAdd? && |st.s.rx| == 20)
  {
    RunKeeps(steps);
    hide Accounted;
    hide Conservation;
    hide NoQuery;
  }

  // ---------------------------------------------------------------- a round ends

  /** Bound on the moves the slave's core 1 makes before it waits on the wire again. */
  function SlaveWork(st: State): nat {
    match st.spc
    case SRecv => 0
    case SListen => 1
    case SAdd(_) => 2
    case SLower(m) => if IsQuery(m) then 2 * |st.s.tx| + 6 else 4
    case SCount => 2 * |st.s.tx| + 5
    case SReply(left) => 2 * left + 4
    case SReplying(left) => 2 * left + 3
    case SStream(left) => 2 * left + 2
    case SSending(left, _) => 2 * left + 3
  }

  function FrameWork(st: State): nat {
    if st.toSlave.None? then 0 else if IsQuery(st.toSlave.value) then 2 * |st.s.tx| + 7 else 5
  }

  /** Bound on the moves left in the master's round, and on those it will cause the slave. */
  function MasterWork(st: State): nat {
    var n := |st.s.tx|;
    match st.mpc
    case MIdle => 0
    case MCollect(left) => 2 * left + 1
    case MAdd(left, _) => 2 * left + 2
    case MCount => 2 * n + 2
    case MQuerySent => 2 * n + 3
    case MQuery => 4 * n + 11
    case MDrain => 4 * n + 12 + 8 * |st.m.tx|
    case MSending(_) => 4 * n + 13 + 8 * |st.m.tx|
    case MOffer(_) => 4 * n + 19 + 8 * |st.m.tx|
  }

  function Work(st: State): nat { MasterWork(st) + FrameWork(st) + SlaveWork(st) }

  lemma MasterWorks(st: State)
    requires Lockstep(st) && NoQuery(st) && BoardBounds(st.s) && MasterEnabled(st) && !st.mpc.MIdle?
    requires st.spc.SReplying? ==> st.spc.left <= |st.s.tx|
    ensures Work(MasterMove(st)) < Work(st)
  {
    hide *;
    if st.mpc.MOffer? {
      OfferWorks(st);
    } else if st.mpc.MDrain? || st.mpc.MSending? || st.mpc.MQuery? || st.mpc.MQuerySent? {
      SendingWorks(st);
    } else {
      CollectingWorks(st);
    }
  }

  lemma SendingWorks(st: State)
    requires Lockstep(st) && MasterEnabled(st)
    requires st.mpc.MDrain? || st.mpc.MSending? || st.mpc.MQuery? || st.mpc.MQuerySent?
    ensures Work(MasterMove(st)) < Work(st)
  {
    hide Load;
  }

  lemma CollectingWorks(st: State)
    requires Lockstep(st) && MasterEnabled(st) && (st.mpc.MCount? || st.mpc.MCollect? || st.mpc.MAdd?)
    requires BoardBounds(st.s) && (st.spc.SReplying? ==> st.spc.left <= |st.s.tx|)
    ensures Work(MasterMove(st)) < Work(st)
  {
    hide IsQuery, Load;
  }

  lemma OfferWorks(st: State)
    requires Lockstep(st) && NoQuery(st) && MasterEnabled(st) && st.mpc.MOffer?
    ensures Work(MasterMove(st)) < Work(st)
  {
    hide IsQuery, Load;
  }

  lemma SlaveWorks(st: State)
    requires Lockstep(st) && BoardBounds(st.s) && SlaveEnabled(st)
    ensures Work(SlaveMove(st)) < Work(st)
  {
  }

  /** The state after `moves` moves of core 1s only, none of which starts a new round. */
  function Undisturbed(st: State, moves: seq<Role>): Option<State>
    decreases |moves|
  {
    if moves == [] then Some(st)
    else if moves[0] == Master && MasterEnabled(st) && !st.mpc.MIdle? then Undisturbed(MasterMove(st), moves[1..])
    else if moves[0] == Slave && SlaveEnabled(st) then Undisturbed(SlaveMove(st), moves[1..])
    else None
  }

  /** While both core 0s are quiet, a round in progress ends: the two core 1s can only make
      `Work` moves before the master is back at the top of its loop. */
  lemma {:induction false} RoundEnds(st: State, moves: seq<Role>)
    requires Inv(st) && Undisturbed(st, moves).Some?
    ensures |moves| <= Work(st)
    decreases |moves|
  {
    if moves != [] {
      var step := Core1(moves[0]);
      OwnershipKept(st, step);
      ConservationKept(st, step);
      LockstepKept(st, step);
      BoundsKept(st, step);
      if moves[0] == Master { MasterWorks(st); } else { SlaveWorks(st); }
      RoundEnds(Next(st, step), moves[1..]);
    }
  }
}
