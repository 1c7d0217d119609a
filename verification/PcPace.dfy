/** Whether the PC receives the answer that the master offers it, however the PC's reads, the calls
    of the handlers and the status of the buffer interleave (device_event_handlers.c, rp2040_usb.c). */
module PcPace {
  import opened Common
  import opened TransferEngine
  import opened SlaveHost
  import opened ControlRead
  import opened MasterDevice
  import AddressRegister
  import Sessions
  import E2E = EndToEnd

  type Sys = AddressRegister.Sys

  type Step = AddressRegister.Step

  /** Steps between two requests of the PC. */
  predicate Reads(step: Step) {
    step.Serve? || step.PcTakes? || step.Done? || step.OutDone?
  }

  predicate AllRead(steps: seq<Step>) { forall s | s in steps :: Reads(s) }

  /** How often the handler of slave events is called. */
  function Calls(steps: seq<Step>): nat
    decreases |steps|
  {
    if steps == [] then 0 else (if steps[0].Serve? then 1 else 0) + Calls(steps[1..])
  }

  lemma {:induction false} CallsAppend(a: seq<Step>, b: seq<Step>)
    ensures Calls(a + b) == Calls(a) + Calls(b)
  {
    if a == [] {
      assert a + b == b;
    } else {
      assert (a + b)[1..] == a[1..] + b;
      CallsAppend(a[1..], b);
    }
  }

  /** At some point the handler finds the status of 0x80 when the buffer has already been armed
      again: the engine's assertion that the buffer is no longer full fails. */
  predicate DoneWhenFull(st: Sys, steps: seq<Step>)
    requires AddressRegister.Wf(st)
    decreases |steps|
  {
    && steps != [] && AddressRegister.Enabled(st, steps[0])
    && ((steps[0].Done? && st.armed.Some?) ||
        (AddressRegister.NextWf(st, steps[0]); DoneWhenFull(AddressRegister.Next(st, steps[0]), steps[1..])))
  }

  // ---------------------------------------------------------------- the handler alone

  lemma {:induction false} PollsFirst(d: Device, n: nat)
    requires Sound(d)
    ensures E2E.Poll(d, n + 1) == E2E.Poll(SlaveEvent(d), n)
  {
    hide SlaveEvent, Sound;
    if n == 0 {
      assert E2E.Poll(d, 1) == SlaveEvent(E2E.Poll(d, 0));
    } else {
      PollsFirst(d, n - 1);
    }
  }

  lemma {:induction false} PollsAdd(d: Device, a: nat, b: nat)
    requires Sound(d)
    ensures E2E.Poll(E2E.Poll(d, a), b) == E2E.Poll(d, a + b)
  {
    hide SlaveEvent;
    if b > 0 {
      PollsAdd(d, a, b - 1);
      E2E.PollsOnce(d, a + b - 1);
    }
  }

  lemma Idles(d: Device)
    requires Sound(d) && d.reading && d.rx == []
    ensures SlaveEvent(d) == d
  {
  }

  /** The answer to a read is in the master's queue. */
  predicate Answered(d: Device, ps: seq<seq<byte>>) {
    && E2E.Collecting(d, []) && ps != [] && |Concat(ps)| <= AGGREGATE && d.rx == E2E.Forwarded(ps)
    && d.setup.bRequest != SET_ADDRESS && ToHost(d.setup)
  }

  /** The master cannot act on the answer: a configuration that it cannot open. */
  predicate Refuses(d: Device, ps: seq<seq<byte>>)
    requires Answered(d, ps)
  {
    Sessions.MasterStops(d, Sessions.Request(d.setup, Concat(ps)))
  }

  lemma RefusesSays(d: Device, ps: seq<seq<byte>>)
    requires Answered(d, ps)
    ensures E2E.Poll(d, |ps|).halted == Refuses(d, ps)
  {
    hide E2E.Collecting, E2E.Forwarded, E2E.Poll, HandleResponse, Sessions.MasterStops, Sessions.Stored, Concat;
    Sessions.FillsTo(d, []);
    var d1 := Sessions.ActsOn(d, ps);
    Sessions.HandlesSays(d, d1, Sessions.Request(d.setup, Concat(ps)));
  }

  /** After the last packet of the answer calls of the handler arm nothing more. */
  lemma {:induction false} AfterAnswer(d: Device, ps: seq<seq<byte>>, c: nat)
    requires Answered(d, ps) && c >= |ps|
    ensures var e, f := E2E.Poll(d, |ps|), E2E.Poll(d, c);
      && f.halted == e.halted && f.armed == e.armed && f.handled == d.handled + [Concat(ps)]
      && f.rx == [] && (c > |ps| || f.halted ==> f.reading)
      && (c > |ps| && !e.halted ==> E2E.Collecting(f, []))
    decreases c
  {
    hide SlaveEvent, E2E.Collecting, E2E.Poll, E2E.Forwarded, Concat;
    Sessions.FillsTo(d, []);
    E2E.Aggregates(d, ps);
    if c > |ps| {
      var before := E2E.Poll(d, c - 1);
      E2E.PollsOnce(d, c - 1);
      AfterAnswer(d, ps, c - 1);
      if c > |ps| + 1 || before.halted {
        Idles(before);
      } else {
        StillOn(E2E.Poll(d, c), []);
      }
    }
  }

  lemma StillOn(d: Device, got: seq<byte>)
    requires E2E.Collecting(d, got)
    ensures d.reading && !d.halted
  {
  }

  /** What the PC has been offered after so many calls, and whether the board goes on. */
  lemma OffersUpTo(d: Device, ps: seq<seq<byte>>, c: nat)
    requires Answered(d, ps)
    ensures AddressRegister.Offers(E2E.Poll(d, c).armed) == AddressRegister.Offers(d.armed) + ps[..Min(c, |ps|)]
    ensures E2E.Poll(d, c).halted <==> c >= |ps| && Refuses(d, ps)
  {
    hide E2E.Poll, E2E.Forwarded, Concat, AddressRegister.Offers, Refuses;
    if c < |ps| {
      E2E.ConcatFits(ps, c);
      E2E.ForwardedFrom(ps, c);
      E2E.Collects(d, ps[..c], E2E.Forwarded(ps)[c..]);
      OffersOf(d.armed, ps[..c]);
    } else {
      RefusesSays(d, ps);
      AfterAnswer(d, ps, c);
      E2E.Aggregates(d, ps);
      OffersOf(d.armed, ps);
      AddressRegister.OffersAppend(d.armed + E2E.Armed(ps), [(0x00, [])]);
      AddressRegister.StatusNoOffer();
      assert AddressRegister.Offers(d.armed + E2E.Armed(ps)) + [] == AddressRegister.Offers(d.armed + E2E.Armed(ps));
      assert ps[..|ps|] == ps;
    }
  }

  /** The offers of an answer's packets, with the status of a read behind them. */
  lemma {:induction false} OffersOf(before: seq<(byte, seq<byte>)>, ps: seq<seq<byte>>)
    ensures AddressRegister.Offers(before + E2E.Armed(ps)) == AddressRegister.Offers(before) + ps
  {
    hide AddressRegister.Offers;
    AddressRegister.OffersAppend(before, E2E.Armed(ps));
    OffersAre(ps);
  }

  lemma {:induction false} OffersAre(ps: seq<seq<byte>>)
    ensures AddressRegister.Offers(E2E.Armed(ps)) == ps
  {
    if ps != [] {
      var n := |ps| - 1;
      OffersAre(ps[..n]);
      assert E2E.Armed(ps)[..n] == E2E.Armed(ps[..n]);
      assert ps == ps[..n] + [ps[n]];
    }
  }

  // ---------------------------------------------------------------- the handler among the other steps

  lemma OneRead(st: Sys, step: Step)
    requires AddressRegister.Wf(st) && AddressRegister.Enabled(st, step) && Reads(step)
    requires st.d.setup.bRequest != SET_ADDRESS
    ensures Sound(st.d)
    ensures AddressRegister.Next(st, step).d ==
      if step.Serve? then SlaveEvent(st.d)
      else if step.Done? && st.armed.Some? then st.d.(halted := true)
      else st.d
  {
    if step.Serve? {
      AddressRegister.Serves(st);
      hide SlaveEvent;
    }
  }

  /** Once the board has stopped, only the controller goes on. */
  lemma {:induction false} Stopped(st: Sys, steps: seq<Step>)
    requires AddressRegister.Wf(st) && AddressRegister.RunFrom(st, steps).Some? && st.d.halted
    ensures AddressRegister.RunFrom(st, steps).value.d == st.d
    ensures Calls(steps) == 0 && !DoneWhenFull(st, steps)
    decreases |steps|
  {
    hide AddressRegister.Next, AddressRegister.Wf;
    if steps != [] {
      AddressRegister.NextWf(st, steps[0]);
      AddressRegister.StaysStopped(st, steps[0]);
      Stopped(AddressRegister.Next(st, steps[0]), steps[1..]);
    }
  }

  /** Whatever the PC does meanwhile, the handler sees the master as if it were called alone, but
      that a full buffer stops the board. */
  lemma {:induction false} PollsThrough(st: Sys, steps: seq<Step>)
    requires AddressRegister.Wf(st) && AddressRegister.RunFrom(st, steps).Some? && AllRead(steps)
    requires st.d.setup.bRequest != SET_ADDRESS && !st.d.halted
    ensures Sound(st.d)
    ensures var x, alone := AddressRegister.RunFrom(st, steps).value, E2E.Poll(st.d, Calls(steps));
      && x.d == alone.(halted := x.d.halted)
      && (x.d.halted <==> alone.halted || DoneWhenFull(st, steps))
    decreases |steps|
  {
    hide AddressRegister.Next, AddressRegister.Wf, SlaveEvent, AddressRegister.Enabled;
    if steps == [] {
      StaysSound(st);
    } else {
      assert steps[0] in steps;
      AddressRegister.NextWf(st, steps[0]);
      var st' := AddressRegister.Next(st, steps[0]);
      OneRead(st, steps[0]);
      AddressRegister.SameRequest(st, steps[0]);
      if st'.d.halted { Stopped(st', steps[1..]); } else { PollsThrough(st', steps[1..]); }
      if steps[0].Serve? { PollsFirst(st.d, Calls(steps[1..])); }
    }
  }

  lemma StaysSound(st: Sys)
    requires AddressRegister.Wf(st)
    ensures Sound(st.d)
  {
  }

  // ---------------------------------------------------------------- when the board stops

  /** A read's answer is in the master's queue and nothing waits for the PC. */
  predicate Offering(st: Sys, ps: seq<seq<byte>>) {
    AddressRegister.Wf(st) && st.armed.None? && Answered(st.d, ps)
  }

  /** Over all interleavings: the board stops if and only if a status of 0x80 is handled after the
      buffer has been armed again, or it refuses the whole answer. */
  lemma StopsIff(st: Sys, ps: seq<seq<byte>>, steps: seq<Step>)
    requires Offering(st, ps) && AllRead(steps) && AddressRegister.RunFrom(st, steps).Some?
    ensures AddressRegister.RunFrom(st, steps).value.d.halted <==>
      DoneWhenFull(st, steps) || (Calls(steps) >= |ps| && Refuses(st.d, ps))
    ensures var x := AddressRegister.RunFrom(st, steps).value;
      AddressRegister.Offers(x.d.armed) == AddressRegister.Offers(st.d.armed) + ps[..Min(Calls(steps), |ps|)]
  {
    hide E2E.Forwarded, Concat, AddressRegister.Offers, AddressRegister.Wf, Refuses, E2E.Poll, DoneWhenFull,
      AddressRegister.RunFrom;
    PollsThrough(st, steps);
    OffersUpTo(st.d, ps, Calls(steps));
  }

  // ---------------------------------------------------------------- what the PC can still receive

  /** A continuation in which nothing is lost: what waits is taken, then `k` calls of the handler,
      each with the PC's read behind it. */
  lemma {:induction false} Finishes(x: Sys, k: nat) returns (cont: seq<Step>)
    requires AddressRegister.Wf(x) && Sound(x.d) && x.d.setup.bRequest != SET_ADDRESS
    requires forall j :: 0 <= j < k ==> !E2E.Poll(x.d, j).halted
    ensures AllRead(cont) && Calls(cont) == k && AddressRegister.RunFrom(x, cont).Some?
    ensures !DoneWhenFull(x, cont)
    ensures var y := AddressRegister.RunFrom(x, cont).value; y.lost == x.lost && y.armed.None?
    decreases k, x.armed.Some?
  {
    hide E2E.Poll, SlaveEvent, AddressRegister.Wf, Sound;
    if x.armed.None? && k == 0 {
      cont := [];
    } else {
      var step: Step := if x.armed.Some? then AddressRegister.PcTakes else AddressRegister.Serve;
      if x.armed.None? { PollNone(x.d); }
      AddressRegister.NextWf(x, step);
      OneRead(x, step);
      AddressRegister.SameRequest(x, step);
      var x' := AddressRegister.Next(x, step);
      var k' := if x.armed.Some? then k else k - 1;
      StaysSound(x');
      if x.armed.None? {
        forall j | 0 <= j < k' ensures !E2E.Poll(x'.d, j).halted {
          PollsFirst(x.d, j);
        }
      }
      OneTaken(x, step);
      hide AddressRegister.Next;
      var more := Finishes(x', k');
      cont := [step] + more;
      assert cont[0] == step && cont[1..] == more;
    }
  }

  lemma PollNone(d: Device)
    requires Sound(d)
    ensures E2E.Poll(d, 0) == d
  {
  }

  lemma OneTaken(x: Sys, step: Step)
    requires AddressRegister.Wf(x) && AddressRegister.Enabled(x, step)
    requires step == if x.armed.Some? then AddressRegister.PcTakes else AddressRegister.Serve
    ensures var x' := AddressRegister.Next(x, step); x'.lost == x.lost && (x.armed.Some? ==> x'.armed.None?)
  {
    hide SlaveEvent, AddressRegister.Wf;
  }

  /** What the PC has of the answer after a run: with nothing overwritten and nothing waiting it
      is as many packets as were armed, and the PC has all of them only then. */
  lemma GotIff(st: Sys, ps: seq<seq<byte>>, steps: seq<Step>)
    requires Offering(st, ps) && AllRead(steps) && AddressRegister.RunFrom(st, steps).Some?
    ensures var x := AddressRegister.RunFrom(st, steps).value;
      && |st.taken| <= |x.taken| && st.lost <= x.lost
      && (AddressRegister.Got(st, x) == ps ==> x.lost == st.lost && Calls(steps) >= |ps|)
      && (x.lost == st.lost && x.armed.None? && Calls(steps) >= |ps| ==> AddressRegister.Got(st, x) == ps)
  {
    var x := AddressRegister.RunFrom(st, steps).value;
    StopsIff(st, ps, steps);
    hide Answered, AddressRegister.Offers, AddressRegister.Wf, AddressRegister.RunFrom, AddressRegister.DataOf,
      DoneWhenFull, Refuses;
    NothingWaits(st, ps);
    AddressRegister.PcTakesAllIff(st, steps);
    var upTo := ps[..Min(Calls(steps), |ps|)];
    assert AddressRegister.Offered(st, x) == upTo;
    assert AddressRegister.Waiting(st) + upTo == upTo;
    assert AddressRegister.Got(st, x) + [] == AddressRegister.Got(st, x);
    assert Calls(steps) >= |ps| ==> upTo == ps;
  }

  lemma NothingWaits(st: Sys, ps: seq<seq<byte>>)
    requires Offering(st, ps)
    ensures AddressRegister.Wf(st) && AddressRegister.Waiting(st) == []
  {
  }

  /** From `x` on the steps of `cont` give the PC exactly the packets of the answer. */
  predicate Receives(st: Sys, x: Sys, ps: seq<seq<byte>>, cont: seq<Step>)
    requires AddressRegister.Wf(x)
  {
    && AllRead(cont) && AddressRegister.RunFrom(x, cont).Some?
    && var y := AddressRegister.RunFrom(x, cont).value;
      |st.taken| <= |y.taken| && AddressRegister.Got(st, y) == ps
  }

  /** ... and leave the master ready for the next request. */
  predicate Completes(st: Sys, x: Sys, ps: seq<seq<byte>>, cont: seq<Step>)
    requires AddressRegister.Wf(x)
  {
    && Receives(st, x, ps, cont)
    && var d := AddressRegister.RunFrom(x, cont).value.d;
      E2E.Collecting(d, []) && d.rx == [] && d.handled == st.d.handled + [Concat(ps)]
  }

  ghost predicate CanReceive(st: Sys, x: Sys, ps: seq<seq<byte>>)
    requires AddressRegister.Wf(x)
  {
    exists cont :: Receives(st, x, ps, cont)
  }

  ghost predicate CanComplete(st: Sys, x: Sys, ps: seq<seq<byte>>)
    requires AddressRegister.Wf(x)
  {
    exists cont :: Completes(st, x, ps, cont)
  }

  lemma {:induction false} FullAppends(st: Sys, a: seq<Step>, b: seq<Step>)
    requires AddressRegister.Wf(st) && AddressRegister.RunFrom(st, a).Some?
    ensures DoneWhenFull(st, a + b) <==>
      DoneWhenFull(st, a) || DoneWhenFull(AddressRegister.RunFrom(st, a).value, b)
    decreases |a|
  {
    hide AddressRegister.Wf, AddressRegister.Next, AddressRegister.Enabled;
    if a == [] {
      assert a + b == b;
    } else {
      AddressRegister.NextWf(st, a[0]);
      FullAppends(AddressRegister.Next(st, a[0]), a[1..], b);
      assert (a + b)[0] == a[0] && (a + b)[1..] == a[1..] + b;
    }
  }

  /** A run and its continuation as one run. */
  lemma Joins(st: Sys, ps: seq<seq<byte>>, steps: seq<Step>, cont: seq<Step>)
    requires Offering(st, ps) && AllRead(steps) && AddressRegister.RunFrom(st, steps).Some? && AllRead(cont)
    requires AddressRegister.RunFrom(AddressRegister.RunFrom(st, steps).value, cont).Some?
    ensures AllRead(steps + cont) && Calls(steps + cont) == Calls(steps) + Calls(cont)
    ensures AddressRegister.RunFrom(st, steps + cont) ==
      AddressRegister.RunFrom(AddressRegister.RunFrom(st, steps).value, cont)
    ensures AddressRegister.RunFrom(st, steps).value.lost <= AddressRegister.RunFrom(st, steps + cont).value.lost
    ensures DoneWhenFull(st, steps) ==> Calls(cont) == 0
    ensures AddressRegister.RunFrom(st, steps).value.d.halted ==>
      Calls(cont) == 0 && AddressRegister.RunFrom(st, steps + cont).value.d.halted
  {
    hide AddressRegister.Wf, Answered, AddressRegister.Next, DoneWhenFull;
    var x := AddressRegister.RunFrom(st, steps).value;
    CallsAppend(steps, cont);
    AddressRegister.RunsOn(st, steps, cont);
    StopsIff(st, ps, steps);
    AddressRegister.PcTakesAllIff(x, cont);
    if x.d.halted { Stopped(x, cont); }
  }

  /** Nothing the PC or the handlers do from here on makes up for a packet that was overwritten,
      or for the packets that a stopped board has not armed. */
  lemma ReceivesOnlyIf(st: Sys, ps: seq<seq<byte>>, steps: seq<Step>, cont: seq<Step>)
    requires Offering(st, ps) && AllRead(steps) && AddressRegister.RunFrom(st, steps).Some?
    requires Receives(st, AddressRegister.RunFrom(st, steps).value, ps, cont)
    ensures AddressRegister.RunFrom(st, steps).value.lost == st.lost
    ensures DoneWhenFull(st, steps) ==> Calls(steps) >= |ps|
  {
    hide AddressRegister.Wf, Answered, AddressRegister.Next, DoneWhenFull, AddressRegister.RunFrom;
    Joins(st, ps, steps, cont);
    GotIff(st, ps, steps);
    GotIff(st, ps, steps + cont);
  }

  /** The calls that are still to come do not find a stopped board. */
  lemma GoesOn(st: Sys, ps: seq<seq<byte>>, steps: seq<Step>, k: nat)
    requires Offering(st, ps) && AllRead(steps) && AddressRegister.RunFrom(st, steps).Some?
    requires var x := AddressRegister.RunFrom(st, steps).value;
      k > 0 ==> !x.d.halted && (Calls(steps) + k <= |ps| || !Refuses(st.d, ps))
    ensures var x := AddressRegister.RunFrom(st, steps).value;
      && AddressRegister.Wf(x) && Sound(x.d) && x.d.setup.bRequest != SET_ADDRESS
      && forall j :: 0 <= j < k ==> !E2E.Poll(x.d, j).halted
  {
    hide AddressRegister.Next, AddressRegister.Wf, E2E.Forwarded, Concat, SlaveEvent, Refuses, DoneWhenFull;
    var x := AddressRegister.RunFrom(st, steps).value;
    StaysSound(x);
    PollsThrough(st, steps);
    SameSetup(st, steps);
    forall j | 0 <= j < k ensures !E2E.Poll(x.d, j).halted {
      PollsAdd(st.d, Calls(steps), j);
      OffersUpTo(st.d, ps, Calls(steps) + j);
    }
  }

  lemma {:induction false} SameSetup(st: Sys, steps: seq<Step>)
    requires AddressRegister.Wf(st) && AddressRegister.RunFrom(st, steps).Some? && AllRead(steps)
    ensures AddressRegister.RunFrom(st, steps).value.d.setup == st.d.setup
    decreases |steps|
  {
    hide AddressRegister.Next, AddressRegister.Wf;
    if steps != [] {
      assert steps[0] in steps;
      AddressRegister.NextWf(st, steps[0]);
      AddressRegister.SameRequest(st, steps[0]);
      SameSetup(AddressRegister.Next(st, steps[0]), steps[1..]);
    }
  }

  /** A read's answer is in the master's queue and nothing waits for the PC.  At any point of any
      interleaving of the PC's reads with the calls of the handlers, the PC can still receive
      exactly the packets of the answer, in order, if and only if none of them was armed over one
      that the PC had not taken, and no status was handled after the buffer had been armed again,
      unless all of them had been armed by then. */
  lemma PcReceivesAnswerIff(st: Sys, ps: seq<seq<byte>>, steps: seq<Step>)
    requires Offering(st, ps) && AllRead(steps) && AddressRegister.RunFrom(st, steps).Some?
    ensures var x := AddressRegister.RunFrom(st, steps).value;
      CanReceive(st, x, ps) <==> x.lost == st.lost && (DoneWhenFull(st, steps) ==> Calls(steps) >= |ps|)
  {
    hide AddressRegister.Wf, Answered, AddressRegister.Next, DoneWhenFull, AddressRegister.RunFrom, Refuses;
    var x := AddressRegister.RunFrom(st, steps).value;
    if x.lost == st.lost && (DoneWhenFull(st, steps) ==> Calls(steps) >= |ps|) {
      StopsIff(st, ps, steps);
      var k := if Calls(steps) < |ps| then |ps| - Calls(steps) else 0;
      GoesOn(st, ps, steps, k);
      var cont := Finishes(x, k);
      Joins(st, ps, steps, cont);
      GotIff(st, ps, steps + cont);
      assert Receives(st, x, ps, cont);
    }
    forall cont | Receives(st, x, ps, cont)
      ensures x.lost == st.lost && (DoneWhenFull(st, steps) ==> Calls(steps) >= |ps|)
    {
      ReceivesOnlyIf(st, ps, steps, cont);
    }
  }

  /** ... and the master can moreover end up ready for the next request, with the answer handled
      once, if and only if no packet was overwritten, no status was handled after the buffer had
      been armed again, and the master does not refuse the answer. */
  lemma AnswerCompletesIff(st: Sys, ps: seq<seq<byte>>, steps: seq<Step>)
    requires Offering(st, ps) && AllRead(steps) && AddressRegister.RunFrom(st, steps).Some?
    ensures var x := AddressRegister.RunFrom(st, steps).value;
      CanComplete(st, x, ps) <==> x.lost == st.lost && !DoneWhenFull(st, steps) && !Refuses(st.d, ps)
  {
    hide AddressRegister.Wf, Answered, AddressRegister.Next, DoneWhenFull, AddressRegister.RunFrom, Refuses,
      E2E.Collecting, Concat;
    var x := AddressRegister.RunFrom(st, steps).value;
    StopsIff(st, ps, steps);
    if x.lost == st.lost && !DoneWhenFull(st, steps) && !Refuses(st.d, ps) {
      var k := if Calls(steps) < |ps| + 1 then |ps| + 1 - Calls(steps) else 0;
      GoesOn(st, ps, steps, k);
      var cont := Finishes(x, k);
      Joins(st, ps, steps, cont);
      FullAppends(st, steps, cont);
      StopsIff(st, ps, steps + cont);
      GotIff(st, ps, steps + cont);
      EndsReady(st, ps, steps + cont);
      assert Completes(st, x, ps, cont);
    }
    forall cont | Completes(st, x, ps, cont)
      ensures x.lost == st.lost && !DoneWhenFull(st, steps) && !Refuses(st.d, ps)
    {
      ReceivesOnlyIf(st, ps, steps, cont);
      Joins(st, ps, steps, cont);
      GotIff(st, ps, steps + cont);
      StopsIff(st, ps, steps + cont);
      StillOn(AddressRegister.RunFrom(x, cont).value.d, []);
    }
  }

  lemma EndsReady(st: Sys, ps: seq<seq<byte>>, steps: seq<Step>)
    requires Offering(st, ps) && AllRead(steps) && AddressRegister.RunFrom(st, steps).Some?
    requires Calls(steps) > |ps| && !AddressRegister.RunFrom(st, steps).value.d.halted
    ensures var d := AddressRegister.RunFrom(st, steps).value.d;
      E2E.Collecting(d, []) && d.rx == [] && d.handled == st.d.handled + [Concat(ps)]
  {
    hide AddressRegister.Wf, AddressRegister.RunFrom, E2E.Poll, E2E.Forwarded, Concat, DoneWhenFull, E2E.Collecting;
    StillOn(st.d, []);
    PollsThrough(st, steps);
    AfterAnswer(st.d, ps, Calls(steps));
    RefusesSays(st.d, ps);
    OffersUpTo(st.d, ps, Calls(steps));
  }

  // ---------------------------------------------------------------- runs in which it fails

  /** The first request after power-up, for a string, is answered by three packets. */
  function Example(p: seq<byte>, q: seq<byte>, r: seq<byte>): Sys {
    var st := AddressRegister.Boot();
    st.(d := st.d.(setup := SlaveHost.Setup(0x80, 6, 0x0300, 0, 255), rx := E2E.Forwarded([p, q, r])),
        tags := [1, 1, 1], n := 1, working := 1)
  }

  lemma ThreePackets(p: seq<byte>, q: seq<byte>, r: seq<byte>)
    ensures E2E.Forwarded([p, q, r]) == [Packet(p, false), Packet(q, false), Packet(r, true)]
    ensures Concat([p, q, r]) == p + q + r
  {
    var ps := [p, q, r];
    assert ps[..2] == [p, q] && [p, q][..1] == [p];
    assert Packets([p]) == [Packet(p, false)];
    assert ps[1..] == [q, r] && ps[1..][1..] == [r] && [r][1..] == [];
    assert Concat([r]) == r && Concat([q, r]) == q + r;
    assert p + (q + r) == p + q + r;
  }

  lemma ExampleOffers(p: seq<byte>, q: seq<byte>, r: seq<byte>)
    requires |p| <= 64 && |q| <= 64 && |r| <= 64
    ensures Offering(Example(p, q, r), [p, q, r])
  {
    hide E2E.Forwarded, Packet, Concat;
    ThreePackets(p, q, r);
    AddressRegister.BootWf();
    AddressRegister.AnswersPlain(p, false);
    AddressRegister.AnswersPlain(q, false);
    AddressRegister.AnswersPlain(r, true);
    assert AddressRegister.Boot().d.aggregate[..0] == [];
  }

  /** One call of the handler with a packet of the answer, but for the last, in the queue. */
  lemma ServesOne(x: Sys, got: seq<byte>, p: seq<byte>, rest: seq<Message>, n: nat, tags: seq<nat>)
    requires AddressRegister.Wf(x) && E2E.Collecting(x.d, got) && |got| + |p| <= AGGREGATE
    requires x.d.rx == [Packet(p, false)] + rest && x.tags == [n] + tags
    ensures var x' := AddressRegister.Next(x, AddressRegister.Serve);
      && AddressRegister.Wf(x') && E2E.Collecting(x'.d, got + p) && x'.d.rx == rest && x'.tags == tags
      && x'.armed == Some(AddressRegister.Tagged(p, n)) && x'.taken == x.taken && x'.status == x.status
      && x'.lost == x.lost + if x.armed.Some? then 1 else 0
  {
    hide SlaveEvent, Packet, AddressRegister.Wf, E2E.Collecting;
    StillOn(x.d, got);
    StaysSound(x);
    AddressRegister.NextWf(x, AddressRegister.Serve);
    E2E.TakesPacket(x.d, got, p, false, rest);
    assert (x.d.armed + [(0x80, p)])[|x.d.armed|] == (0x80, p);
    assert ([n] + tags)[1..] == tags && ([n] + tags)[0] == n;
  }

  lemma Starts(p: seq<byte>, q: seq<byte>, r: seq<byte>)
    requires |p| <= 64 && |q| <= 64 && |r| <= 64
    ensures var st := Example(p, q, r);
      && Offering(st, [p, q, r]) && AddressRegister.Wf(st) && E2E.Collecting(st.d, [])
      && st.d.rx == [Packet(p, false)] + [Packet(q, false), Packet(r, true)] && st.tags == [1] + [1, 1]
      && st.armed.None? && st.taken == [] && st.lost == 0 && !st.status
  {
    hide E2E.Forwarded, Packet;
    ExampleOffers(p, q, r);
    ThreePackets(p, q, r);
  }

  /** The handler is called twice before the PC reads: the first packet is overwritten, and the PC
      cannot receive the answer any more. */
  lemma OverwritesUnread(p: seq<byte>, q: seq<byte>, r: seq<byte>)
    requires |p| <= 64 && |q| <= 64 && |r| <= 64
    ensures var st, steps := Example(p, q, r), [AddressRegister.Serve, AddressRegister.Serve];
      && Offering(st, [p, q, r]) && AddressRegister.RunFrom(st, steps).Some?
      && var x := AddressRegister.RunFrom(st, steps).value;
        x.armed == Some(AddressRegister.Tagged(q, 1)) && x.taken == [] && !x.d.halted && !CanReceive(st, x, [p, q, r])
  {
    Starts(p, q, r);
    var st, serve: Step := Example(p, q, r), AddressRegister.Serve;
    hide Packet, Example, AddressRegister.Next, AddressRegister.Wf, Offering, CanReceive, E2E.Collecting;
    ServesOne(st, [], p, [Packet(q, false), Packet(r, true)], 1, [1, 1]);
    assert [] + p == p;
    var s1 := AddressRegister.Next(st, serve);
    assert s1.d.rx == [Packet(q, false)] + [Packet(r, true)] && s1.tags == [1] + [1];
    ServesOne(s1, p, q, [Packet(r, true)], 1, [1]);
    var s2 := AddressRegister.Next(s1, serve);
    StillOn(st.d, []);
    StillOn(s1.d, p);
    StillOn(s2.d, p + q);
    AddressRegister.Unrolls(s1, serve, []);
    AddressRegister.Unrolls(st, serve, [serve]);
    assert [serve] + [serve] == [serve, serve] && [serve] + [] == [serve];
    PcReceivesAnswerIff(st, [p, q, r], [serve, serve]);
  }

  lemma FourSteps(st: Sys, s1: Sys, s2: Sys, s3: Sys, a: Step, b: Step, c: Step, d: Step)
    requires AddressRegister.Wf(st) && AddressRegister.Enabled(st, a) && s1 == AddressRegister.Next(st, a)
    requires AddressRegister.Wf(s1) && AddressRegister.Enabled(s1, b) && s2 == AddressRegister.Next(s1, b)
    requires AddressRegister.Wf(s2) && AddressRegister.Enabled(s2, c) && s3 == AddressRegister.Next(s2, c)
    requires AddressRegister.Wf(s3) && AddressRegister.Enabled(s3, d)
    ensures AddressRegister.RunFrom(st, [a, b, c, d]) == Some(AddressRegister.Next(s3, d))
  {
    hide AddressRegister.Wf, AddressRegister.Enabled, AddressRegister.Next;
    AddressRegister.NextWf(s3, d);
    AddressRegister.Unrolls(s3, d, []);
    AddressRegister.Unrolls(s2, c, [d]);
    AddressRegister.Unrolls(s1, b, [c, d]);
    AddressRegister.Unrolls(st, a, [b, c, d]);
    assert [d] + [] == [d] && [c] + [d] == [c, d] && [b] + [c, d] == [b, c, d] && [a] + [b, c, d] == [a, b, c, d];
  }

  lemma PcTakesOne(x: Sys)
    requires AddressRegister.Wf(x) && x.armed.Some?
    ensures var x' := AddressRegister.Next(x, AddressRegister.PcTakes);
      && AddressRegister.Wf(x') && x'.d == x.d && x'.tags == x.tags && x'.lost == x.lost
      && x'.armed.None? && x'.status && x'.taken == x.taken + [x.armed.value]
  {
    AddressRegister.NextWf(x, AddressRegister.PcTakes);
  }

  /** The PC reads in time, but the second packet is armed before the status of the first has been
      handled: nothing is overwritten, the board stops, and the PC cannot receive the answer. */
  lemma StopsAtFullBuffer(p: seq<byte>, q: seq<byte>, r: seq<byte>)
    requires |p| <= 64 && |q| <= 64 && |r| <= 64
    ensures var st := Example(p, q, r);
      var steps := [AddressRegister.Serve, AddressRegister.PcTakes, AddressRegister.Serve, AddressRegister.Done];
      && Offering(st, [p, q, r]) && AddressRegister.RunFrom(st, steps).Some?
      && var x := AddressRegister.RunFrom(st, steps).value;
        && x.d.halted && x.lost == st.lost && x.taken == [AddressRegister.Tagged(p, 1)]
        && !CanReceive(st, x, [p, q, r])
  {
    hide Packet, Example, AddressRegister.Wf, Offering, CanReceive, E2E.Collecting, AddressRegister.Next,
      AddressRegister.RunFrom, Calls, DoneWhenFull;
    Starts(p, q, r);
    var st, serve: Step, takes: Step, done: Step :=
      Example(p, q, r), AddressRegister.Serve, AddressRegister.PcTakes, AddressRegister.Done;
    ServesOne(st, [], p, [Packet(q, false), Packet(r, true)], 1, [1, 1]);
    assert [] + p == p && st.taken + [AddressRegister.Tagged(p, 1)] == [AddressRegister.Tagged(p, 1)];
    StillOn(st.d, []);
    var s1 := AddressRegister.Next(st, serve);
    PcTakesOne(s1);
    var s2 := AddressRegister.Next(s1, takes);
    assert s2.d.rx == [Packet(q, false)] + [Packet(r, true)] && s2.tags == [1] + [1];
    ServesOne(s2, p, q, [Packet(r, true)], 1, [1]);
    StillOn(s1.d, p);
    var s3 := AddressRegister.Next(s2, serve);
    StillOn(s3.d, p + q);
    FourSteps(st, s1, s2, s3, serve, takes, serve, done);
    StopsHere(s3);
    TwoCalls(serve, takes, done);
    StopsIff(st, [p, q, r], [serve, takes, serve, done]);
    PcReceivesAnswerIff(st, [p, q, r], [serve, takes, serve, done]);
  }

  lemma StopsHere(x: Sys)
    requires AddressRegister.Wf(x) && AddressRegister.Enabled(x, AddressRegister.Done) && x.armed.Some?
    ensures var x' := AddressRegister.Next(x, AddressRegister.Done);
      x'.d.halted && x'.taken == x.taken && x'.lost == x.lost
  {
  }

  lemma TwoCalls(serve: Step, takes: Step, done: Step)
    requires serve.Serve? && takes.PcTakes? && done.Done?
    ensures Calls([serve, takes, serve, done]) == 2
  {
    CallsAppend([serve], [takes, serve, done]);
    CallsAppend([takes], [serve, done]);
    CallsAppend([serve], [done]);
    assert [serve] + [takes, serve, done] == [serve, takes, serve, done];
    assert [takes] + [serve, done] == [takes, serve, done] && [serve] + [done] == [serve, done];
  }
}
