/** What a round of the two boards delivers (messages.c). */
module SyncDelivery {
  import opened Common
  import opened SyncProtocol
  import opened SyncTheorems

  // ---------------------------------------------------------------- both core 0s quiet

  /** What a round that began with a listening slave has done so far: the master asks only when its
      tx is empty, and what the slave has announced and not sent yet is all of its tx. */
  predicate OnCourse(st: State) {
    && (st.mpc.MDrain? || st.mpc.MOffer? || st.mpc.MSending? || st.mpc.MQuery? ==> Listening(st.spc))
    && (st.mpc.MDrain? || st.mpc.MOffer? || st.mpc.MSending? || st.m.tx == [])
    && (st.spc.SReply? || st.spc.SReplying? || st.spc.SStream? || st.spc.SSending? ==> st.spc.left == |st.s.tx|)
    && (st.mpc.MCollect? || st.mpc.MAdd? || st.mpc.MIdle? ==>
          && (st.spc.SListen? || st.spc.SRecv? ==> st.s.tx == [])
          && !st.spc.SLower? && !st.spc.SAdd?)
  }

  lemma MasterOnCourse(st: State)
    requires Lockstep(st) && NoQuery(st) && OnCourse(st) && MasterEnabled(st) && !st.mpc.MIdle?
    ensures OnCourse(MasterMove(st))
  {
    hide Load, IsQuery;
  }

  lemma SlaveOnCourse(st: State)
    requires Lockstep(st) && BoardBounds(st.s) && OnCourse(st) && SlaveEnabled(st)
    ensures OnCourse(SlaveMove(st))
  {
    hide Load;
  }

  /** Moves of the two core 1s keep what all runs keep, and alter neither pipe. */
  lemma MoveKeeps(st: State, role: Role)
    requires Inv(st) && OnCourse(st)
    requires if role == Master then MasterEnabled(st) && !st.mpc.MIdle? else SlaveEnabled(st)
    ensures var st' := if role == Master then MasterMove(st) else SlaveMove(st);
      && Inv(st') && OnCourse(st') && DownPipe(st') == DownPipe(st) && UpPipe(st') == UpPipe(st)
  {
    hide Accounted, Conservation, OnCourse, Lockstep, NoQuery, BoardBounds, MasterMove, SlaveMove, DownPipe, UpPipe,
      MasterEnabled, SlaveEnabled;
    var step := Core1(role);
    OwnershipKept(st, step);
    ConservationKept(st, step);
    LockstepKept(st, step);
    BoundsKept(st, step);
    if role == Master {
      MasterOnCourse(st);
      MasterConserves(st);
    } else {
      SlaveOnCourse(st);
      SlaveConserves(st);
    }
  }

  lemma {:induction false} MovesKeep(st: State, moves: seq<Role>)
    requires Inv(st) && OnCourse(st) && Undisturbed(st, moves).Some?
    ensures var st' := Undisturbed(st, moves).value;
      && Inv(st') && OnCourse(st') && DownPipe(st') == DownPipe(st) && UpPipe(st') == UpPipe(st)
    decreases |moves|
  {
    hide Inv, OnCourse, MasterMove, SlaveMove, DownPipe, UpPipe, MasterEnabled, SlaveEnabled;
    if moves != [] {
      MoveKeeps(st, moves[0]);
      MovesKeep(if moves[0] == Master then MasterMove(st) else SlaveMove(st), moves[1..]);
    }
  }

  lemma NothingUnderWay(st: State)
    requires Lockstep(st) && OnCourse(st) && st.mpc.MIdle?
    ensures st.m.tx == [] && st.s.tx == [] && Down(st) == [] && Up(st) == []
  {
  }

  /** A round that begins with a listening slave, while both core 0s are quiet, has delivered
      everything when it ends: both tx are empty, the master's rx has gained exactly the messages
      of the slave's tx, and the slave's rx those of the master's tx behind what was under way. */
  lemma RoundDelivers(st: State, moves: seq<Role>)
    requires Inv(st) && st.mpc.MDrain? && Listening(st.spc)
    requires Undisturbed(st, moves).Some? && Undisturbed(st, moves).value.mpc.MIdle?
    ensures var st' := Undisturbed(st, moves).value;
      && st'.m.tx == [] && st'.s.tx == []
      && Loads(st'.m.heap, st'.m.rx) == Loads(st.m.heap, st.m.rx) + Loads(st.s.heap, st.s.tx)
      && Loads(st'.s.heap, st'.s.rx) == Loads(st.s.heap, st.s.rx) + (Down(st) + Loads(st.m.heap, st.m.tx))
  {
    MovesKeep(st, moves);
    var st' := Undisturbed(st, moves).value;
    NothingUnderWay(st');
    StartsEmpty(st);
    hide Undisturbed, Inv, OnCourse, Loads, Down, Up;
    assert Loads(st'.m.heap, []) == [] && Loads(st'.s.heap, []) == [] by { NoLoads(st'.m.heap); NoLoads(st'.s.heap); }
    assert DownPipe(st') == Loads(st'.s.heap, st'.s.rx) + ([] + []);
    assert UpPipe(st') == Loads(st'.m.heap, st'.m.rx) + ([] + []);
    assert [] + Loads(st.s.heap, st.s.tx) == Loads(st.s.heap, st.s.tx);
  }

  lemma NoLoads(h: Heap)
    ensures Loads(h, []) == []
  {
  }

  lemma StartsEmpty(st: State)
    requires Lockstep(st) && st.mpc.MDrain?
    ensures Up(st) == []
  {
  }

  /** ... and it does end: with room in both rx for what is to come, the two core 1s can always go
      on until the master is back at the top of its loop, after at most `Work` moves. */
  lemma RoundCompletes(st: State, moves: seq<Role>)
    requires Inv(st) && st.mpc.MDrain? && Listening(st.spc)
    requires |st.s.rx| + |Down(st)| + |st.m.tx| <= CAPACITY
    requires |st.m.rx| + |st.s.tx| <= CAPACITY
    requires Undisturbed(st, moves).Some? && !Undisturbed(st, moves).value.mpc.MIdle?
    ensures |moves| <= Work(st)
    ensures var st' := Undisturbed(st, moves).value; MasterEnabled(st') || SlaveEnabled(st')
  {
    RoundEnds(st, moves);
    MovesKeep(st, moves);
    var st' := Undisturbed(st, moves).value;
    StartsEmpty(st);
    assert |DownPipe(st')| <= CAPACITY && |UpPipe(st')| <= CAPACITY;
    GoesOn(st');
  }

  lemma GoesOn(st: State)
    requires Inv(st) && OnCourse(st) && !st.mpc.MIdle? && |DownPipe(st)| <= CAPACITY && |UpPipe(st)| <= CAPACITY
    ensures MasterEnabled(st) || SlaveEnabled(st)
  {
    hide Accounted, Conservation, NoQuery, IsQuery;
  }

  // ---------------------------------------------------------------- core 0s at work

  /** How many messages have left the slave's tx. */
  function HaveLeft(b: Board): int { |b.enqueued| - |b.tx| }

  /** The slave is between reading the level of its tx and the end of its stream. */
  predicate Streaming(pc: SlavePc) { pc.SReply? || pc.SReplying? || pc.SStream? || pc.SSending? }

  /** Steps from a state, of any cores; `None` if one is not enabled or the slave leaves its half
      of the round. */
  function Streams(st: State, steps: seq<Step>): Option<State>
    decreases |steps|
  {
    if steps == [] then Some(st)
    else if Enabled(st, steps[0]) && Streaming(Next(st, steps[0]).spc) then Streams(Next(st, steps[0]), steps[1..])
    else None
  }

  lemma StreamKeeps(st: State, step: Step)
    requires Bounds(st) && Enabled(st, step) && Streaming(Next(st, step).spc)
    ensures var st' := Next(st, step);
      if Streaming(st.spc) then HaveLeft(st'.s) + st'.spc.left == HaveLeft(st.s) + st.spc.left
      else st.spc.SCount? && HaveLeft(st'.s) + st'.spc.left == |st.s.enqueued|
  {
    hide Bounds, Load, MasterMove, MasterEnabled, SlaveMove, SlaveEnabled, Core0Move, Core0Enabled;
    match step
    case Core1(Master) => MasterElsewhere(st);
    case Core1(Slave) => SlaveStreams(st);
    case Attach(_) =>
    case _ => if step.role == Slave { Core0Leaves(st.s, step); }
  }

  lemma MasterElsewhere(st: State)
    requires MasterEnabled(st)
    ensures MasterMove(st).s == st.s && MasterMove(st).spc == st.spc
  {
  }

  lemma Core0Leaves(b: Board, step: Step)
    requires Core0Enabled(b, Slave, step)
    ensures HaveLeft(Core0Move(b, Slave, step)) == HaveLeft(b)
  {
  }

  lemma SlaveStreams(st: State)
    requires Bounds(st) && SlaveEnabled(st) && Streaming(SlaveMove(st).spc)
    ensures var st' := SlaveMove(st);
      if Streaming(st.spc) then HaveLeft(st'.s) + st'.spc.left == HaveLeft(st.s) + st.spc.left
      else st.spc.SCount? && HaveLeft(st'.s) + st'.spc.left == |st.s.enqueued|
  {
    hide Load, NoQuery;
  }

  lemma {:induction false} StreamsKeep(st: State, steps: seq<Step>)
    requires Inv(st) && Streaming(st.spc) && Streams(st, steps).Some?
    ensures var st' := Streams(st, steps).value;
      Streaming(st'.spc) && HaveLeft(st'.s) + st'.spc.left == HaveLeft(st.s) + st.spc.left
    decreases |steps|
  {
    if steps != [] {
      StreamKeeps(st, steps[0]);
      StepKeeps(st, steps[0]);
      hide Inv, Next, Enabled;
      StreamsKeep(Next(st, steps[0]), steps[1..]);
    }
  }

  lemma StepKeeps(st: State, step: Step)
    requires Inv(st) && Enabled(st, step)
    ensures Inv(Next(st, step))
  {
    hide Ownership, Conservation, Lockstep, Bounds, Next, Enabled;
    OwnershipKept(st, step);
    ConservationKept(st, step);
    LockstepKept(st, step);
    BoundsKept(st, step);
  }

  /** Whatever the core 0s do meanwhile: when the slave comes to the end of its stream, exactly the
      messages that had been enqueued when it read the level have left its tx. */
  lemma TakesAllCounted(st: State, steps: seq<Step>)
    requires Inv(st) && st.spc.SCount? && steps != [] && Streams(st, steps).Some?
    requires var pc := Streams(st, steps).value.spc; pc.SStream? && pc.left == 0
    ensures HaveLeft(Streams(st, steps).value.s) == |st.s.enqueued|
  {
    StreamKeeps(st, steps[0]);
    StepKeeps(st, steps[0]);
    hide Inv, Next, Enabled;
    StreamsKeep(Next(st, steps[0]), steps[1..]);
  }

  // ---------------------------------------------------------------- without a device

  /** Steps of any core from a state, none of which attaches a device. */
  function Unattached(st: State, steps: seq<Step>): Option<State>
    decreases |steps|
  {
    if steps == [] then Some(st)
    else if Enabled(st, steps[0]) && steps[0] != Attach(true) then Unattached(Next(st, steps[0]), steps[1..])
    else None
  }

  /** While no device is attached a master at the top of its loop stays there, and nothing leaves its
      tx. */
  lemma {:induction false} NothingWithoutDevice(st: State, steps: seq<Step>)
    requires st.mpc.MIdle? && !st.attached && Unattached(st, steps).Some?
    ensures var st' := Unattached(st, steps).value;
      st'.mpc.MIdle? && !st'.attached && st.m.tx <= st'.m.tx
    decreases |steps|
  {
    if steps != [] {
      StaysIdle(st, steps[0]);
      hide Next, Enabled;
      NothingWithoutDevice(Next(st, steps[0]), steps[1..]);
    }
  }

  lemma StaysIdle(st: State, step: Step)
    requires st.mpc.MIdle? && !st.attached && Enabled(st, step) && step != Attach(true)
    ensures var st' := Next(st, step); st'.mpc.MIdle? && !st'.attached && st.m.tx <= st'.m.tx
  {
  }

  /** With one it begins a round. */
  lemma BeginsWithDevice(st: State)
    requires st.mpc.MIdle?
    ensures MasterEnabled(st) && (MasterMove(st) == st.(mpc := MDrain) <==> st.attached)
  {
  }
}
