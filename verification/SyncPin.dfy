/** What the slave's waiting pin tells the master (messages.c, send_message and recieve_message). */
module SyncPin {
  import opened Common
  import opened SyncProtocol
  import opened SyncTheorems

  /** The master is about to put a frame on the wire, and the pin lets it. */
  predicate Offers(st: State) {
    (st.mpc.MOffer? || st.mpc.MQuery?) && MasterEnabled(st)
  }

  /** The slave raised the pin for a frame that it has read already. */
  predicate Stale(st: State) { st.spc.SLower? }

  /** How many frames of the master the slave has taken since the master's round began. */
  function TakenThisRound(steps: seq<Step>): nat {
    if steps == [] then 0
    else
      var before := steps[..|steps| - 1];
      match Run(before)
      case None => 0
      case Some(st) =>
        if steps[|steps| - 1] != Core1(Master) then TakenThisRound(before)
        else if st.mpc.MIdle? then 0
        else if st.mpc.MSending? then TakenThisRound(before) + 1
        else TakenThisRound(before)
  }

  /** The slave is between frames: its pin, if it is up, was raised for the next one. */
  predicate BetweenFrames(st: State) { !st.spc.SLower? && !st.spc.SAdd? }

  /** While the master has had no frame taken in its round, or is between rounds. */
  predicate NoneTaken(st: State, taken: nat) {
    st.mpc.MIdle? || (taken == 0 && (st.mpc.MDrain? || st.mpc.MOffer? || st.mpc.MQuery?))
  }

  lemma StepBetweenFrames(st: State, step: Step, taken: nat, taken': nat)
    requires Inv(st) && Enabled(st, step)
    requires NoneTaken(st, taken) ==> BetweenFrames(st)
    requires taken' ==
      if step != Core1(Master) then taken
      else if st.mpc.MIdle? then 0
      else if st.mpc.MSending? then taken + 1 else taken
    ensures NoneTaken(Next(st, step), taken') ==> BetweenFrames(Next(st, step))
  {
    hide Ownership, Conservation, Bounds, Load, IsQuery, Core0Move, Core0Enabled;
  }

  lemma {:induction false} RunBetweenFrames(steps: seq<Step>)
    requires Run(steps).Some?
    ensures NoneTaken(Run(steps).value, TakenThisRound(steps)) ==> BetweenFrames(Run(steps).value)
  {
    if steps != [] {
      var before := steps[..|steps| - 1];
      RunBetweenFrames(before);
      RunKeeps(before);
      hide Inv, Next, Enabled, NoneTaken, BetweenFrames;
      StepBetweenFrames(Run(before).value, steps[|steps| - 1], TakenThisRound(before), TakenThisRound(steps));
    }
  }

  /** The master puts a frame on the wire only while the slave is reading or has read one and
      not lowered its pin yet ... */
  lemma OfferFindsPin(steps: seq<Step>)
    requires Run(steps).Some? && Offers(Run(steps).value)
    ensures Run(steps).value.spc.SRecv? || Stale(Run(steps).value)
  {
    RunKeeps(steps);
  }

  /** ... and the first frame of every round, or the query of an empty one, finds it reading. */
  lemma FirstOfferFindsReader(steps: seq<Step>)
    requires Run(steps).Some? && Offers(Run(steps).value) && TakenThisRound(steps) == 0
    ensures Run(steps).value.spc.SRecv?
  {
    OfferFindsPin(steps);
    RunBetweenFrames(steps);
  }

  // ---------------------------------------------------------------- later frames

  /** A run to `st` after which the master, its queue drained, has had `k` frames taken in the
      round, and the slave has read the last of them and not lowered its pin. */
  ghost predicate Drained(steps: seq<Step>, st: State, k: nat) {
    && Run(steps) == Some(st) && TakenThisRound(steps) == k
    && st.mpc.MDrain? && st.m.tx == [] && st.m.adding.None? && st.toSlave.None?
    && st.spc.SLower? && !IsQuery(st.spc.m) && st.waiting && st.s.rx == [] && st.s.held.None?
  }

  lemma Extend(steps: seq<Step>, st: State, step: Step, st': State) returns (more: seq<Step>)
    requires Run(steps) == Some(st) && Enabled(st, step) && st' == Next(st, step)
    ensures Run(more) == Some(st')
    ensures TakenThisRound(more) ==
      if step != Core1(Master) then TakenThisRound(steps)
      else if st.mpc.MIdle? then 0
      else if st.mpc.MSending? then TakenThisRound(steps) + 1 else TakenThisRound(steps)
  {
    more := steps + [step];
    assert more[..|more| - 1] == steps;
  }

  /** From a slave that listens, with an empty rx, and a master whose core 0 has one message. */
  ghost predicate Ready(steps: seq<Step>, st: State, k: nat) {
    && Run(steps) == Some(st) && TakenThisRound(steps) == k
    && st.mpc.MDrain? && st.m.tx == [] && st.m.adding.None? && st.toSlave.None?
    && st.spc.SListen? && st.s.rx == [] && st.s.held.None?
  }

  /** One more frame: core 0 enqueues it, the master sends it and the slave reads it. */
  lemma SendsOne(steps: seq<Step>, st: State, k: nat) returns (more: seq<Step>, st': State)
    requires Ready(steps, st, k)
    ensures Drained(more, st', k + 1)
  {
    var a, p := Message(RESET_USB, []), st.m.nextPtr;
    assert !IsQuery(a);
    var t1, s1 := steps, st;
    s1 := Next(st, Copy(Master, a));
    t1 := Extend(steps, st, Copy(Master, a), s1);
    var s2 := Next(s1, Add(Master));
    var t2 := Extend(t1, s1, Add(Master), s2);
    assert s2.m.tx == [p] && Load(s2.m.heap, p) == a;
    more, st' := Transmits(t2, s2, k, p);
  }

  lemma Transmits(steps: seq<Step>, st: State, k: nat, p: nat) returns (more: seq<Step>, st': State)
    requires Run(steps) == Some(st) && TakenThisRound(steps) == k
    requires st.mpc.MDrain? && st.m.tx == [p] && st.m.adding.None? && st.toSlave.None? && !IsQuery(Load(st.m.heap, p))
    requires st.spc.SListen? && st.s.rx == [] && st.s.held.None?
    ensures Drained(more, st', k + 1)
  {
    hide IsQuery, Load, Run, TakenThisRound;
    var s1 := Next(st, Core1(Slave));
    var t1 := Extend(steps, st, Core1(Slave), s1);
    var s2 := Next(s1, Core1(Master));
    var t2 := Extend(t1, s1, Core1(Master), s2);
    var s3 := Next(s2, Core1(Master));
    var t3 := Extend(t2, s2, Core1(Master), s3);
    var s4 := Next(s3, Core1(Slave));
    var t4 := Extend(t3, s3, Core1(Slave), s4);
    st' := Next(s4, Core1(Master));
    more := Extend(t4, s4, Core1(Master), st');
  }

  /** The slave lowers its pin, passes the message on and listens again. */
  lemma PassesOn(steps: seq<Step>, st: State, k: nat) returns (more: seq<Step>, st': State)
    requires Drained(steps, st, k)
    ensures Ready(more, st', k)
  {
    hide IsQuery, Load, Run, TakenThisRound;
    var s1 := Next(st, Core1(Slave));
    var t1 := Extend(steps, st, Core1(Slave), s1);
    var s2 := Next(s1, Core1(Slave));
    var t2 := Extend(t1, s1, Core1(Slave), s2);
    var s3 := Next(s2, Dequeue(Slave));
    var t3 := Extend(t2, s2, Dequeue(Slave), s3);
    st' := Next(s3, Free(Slave));
    more := Extend(t3, s3, Free(Slave), st');
  }

  /** The first frame of a round. */
  lemma BeginsRound() returns (steps: seq<Step>, st: State)
    ensures Ready(steps, st, 0)
  {
    var s1 := Next(INIT, Attach(true));
    assert Run([]) == Some(INIT);
    var t1 := Extend([], INIT, Attach(true), s1);
    st := Next(s1, Core1(Master));
    steps := Extend(t1, s1, Core1(Master), st);
  }

  lemma {:induction false} DrainedAfter(k: nat) returns (steps: seq<Step>, st: State)
    requires k > 0
    ensures Drained(steps, st, k)
  {
    if k == 1 {
      var t, s0 := BeginsRound();
      hide Ready, Drained;
      steps, st := SendsOne(t, s0, 0);
    } else {
      var t, s0 := DrainedAfter(k - 1);
      hide Ready, Drained;
      var t1, s1 := PassesOn(t, s0, k - 1);
      steps, st := SendsOne(t1, s1, k - 1);
    }
  }

  ghost predicate StaleOffer(steps: seq<Step>, k: nat) {
    && Run(steps).Some? && TakenThisRound(steps) == k
    && Offers(Run(steps).value) && Stale(Run(steps).value)
  }

  /** Exactly when the pin misleads: a master that has had `k` frames taken in its round can be
      let through by a stale pin if and only if `k` is not 0. */
  lemma StalePinIff(k: nat)
    ensures (exists steps :: StaleOffer(steps, k)) <==> k > 0
  {
    forall steps | StaleOffer(steps, k) ensures k > 0 {
      if k == 0 { FirstOfferFindsReader(steps); }
    }
    if k > 0 {
      var steps, st := DrainedAfter(k);
      var st' := Next(st, Core1(Master));
      var more := Extend(steps, st, Core1(Master), st');
      assert StaleOffer(more, k);
    }
  }
}
