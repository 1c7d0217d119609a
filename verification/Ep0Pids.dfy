/** The data PIDs of the master's control endpoint (dcd_rp2040.c): each packet of an answer is a
    transfer of its own, and a setup packet sets both directions back to DATA1. */
module Ep0Pids {
  import opened Common
  import opened TransferEngine
  import opened MasterDevice
  import E2E = EndToEnd
  import PcPace

  const MAX_PACKET := 64

  /** A direction of endpoint 0 between two transfers, or with one packet armed. */
  predicate OneDirection(e: Ep, rx: bool) {
    && e.rx == rx && e.mps == MAX_PACKET && |e.hw| == MAX_PACKET && e.remaining == 0
    && (e.ctrl.avail ==> e.ctrl.full == !rx && e.ctrl.len <= MAX_PACKET)
  }

  function ResetPid(e: Ep): Ep { e.(nextPid := true) }

  /** `reset_ep0_pid` */
  method ResetEp0Pid(out0: HwEndpoint, in0: HwEndpoint)
    requires out0 != in0
    modifies out0, in0
    ensures out0.View() == ResetPid(old(out0.View())) && in0.View() == ResetPid(old(in0.View()))
    ensures out0.nextPid && in0.nextPid
  {
    var i := 0;
    while i < 2
      invariant 0 <= i <= 2
      invariant out0.View() == if i > 0 then ResetPid(old(out0.View())) else old(out0.View())
      invariant in0.View() == if i > 1 then ResetPid(old(in0.View())) else old(in0.View())
    {
      var ep := if i == 0 then out0 else in0;
      ep.nextPid := true;
      i := i + 1;
    }
  }

  /** A transfer of one packet is started on 0x80, or the controller has sent the armed packet
      and its status is handled. */
  datatype Step = Offer(p: seq<byte>) | Sent

  function Started(e: Ep, p: seq<byte>): Ep
    requires OneDirection(e, false) && |p| <= MAX_PACKET
  {
    XferStart(e, Mem(p, 0), |p|, Master)
  }

  function Next(e: Ep, step: Step): (e': Ep)
    requires OneDirection(e, false) && (step.Offer? ==> |step.p| <= MAX_PACKET)
    ensures OneDirection(e', false)
    ensures e'.nextPid == if step.Offer? then !e.nextPid else e.nextPid
  {
    match step
    case Offer(p) => Started(e, p)
    case Sent => if e.ctrl.avail then ResetTransfer(Continue(Complete(e, []), Master).0) else e
  }

  /** What each transfer arms: the control word, and the bytes in the hardware buffer. */
  function Words(e: Ep, steps: seq<Step>): seq<(BufCtrl, seq<byte>)>
    requires OneDirection(e, false) && forall s | s in steps :: s.Offer? ==> |s.p| <= MAX_PACKET
    decreases |steps|
  {
    if steps == [] then []
    else
      assert steps[0] in steps;
      var e' := Next(e, steps[0]);
      (match steps[0]
       case Offer(p) => [(e'.ctrl, e'.hw[..|p|])]
       case Sent => []) + Words(e', steps[1..])
  }

  function Offered(steps: seq<Step>): seq<seq<byte>>
    decreases |steps|
  {
    if steps == [] then []
    else (match steps[0] case Offer(p) => [p] case Sent => []) + Offered(steps[1..])
  }

  lemma OneWord(e: Ep, p: seq<byte>)
    requires OneDirection(e, false) && |p| <= MAX_PACKET
    ensures Started(e, p).ctrl == BufCtrl(|p|, true, true, true, e.nextPid, true, false)
    ensures |Started(e, p).hw| == MAX_PACKET && Started(e, p).hw[..|p|] == p
  {
    hide CtrlWord;
    var l := Loaded(e, Mem(p, 0), |p|);
    DeviceArmSays(l);
    assert Peek(l.user, 0, |p|) == p;
  }

  /** The PID of the `k`th packet from one that carries `pid`. */
  predicate Due(pid: bool, k: nat) { pid == (k % 2 == 0) }

  /** Control words and buffers of these packets, with alternating PIDs from `pid` on. */
  predicate Alternate(ws: seq<(BufCtrl, seq<byte>)>, ps: seq<seq<byte>>, pid: bool) {
    && |ws| == |ps|
    && forall k :: 0 <= k < |ps| ==> ws[k] == (BufCtrl(|ps[k]|, true, true, true, Due(pid, k), true, false), ps[k])
  }

  lemma ConsAlternate(ws: seq<(BufCtrl, seq<byte>)>, ps: seq<seq<byte>>, p: seq<byte>, pid: bool)
    requires Alternate(ws, ps, !pid)
    ensures Alternate([(BufCtrl(|p|, true, true, true, pid, true, false), p)] + ws, [p] + ps, pid)
  {
    hide Due;
    var ws', ps' := [(BufCtrl(|p|, true, true, true, pid, true, false), p)] + ws, [p] + ps;
    forall k | 0 <= k < |ps'|
      ensures ws'[k] == (BufCtrl(|ps'[k]|, true, true, true, Due(pid, k), true, false), ps'[k])
    {
      if k == 0 { FirstDue(pid); } else { NextDue(pid, k - 1); }
    }
  }

  lemma NextDue(pid: bool, k: nat)
    ensures Due(pid, k + 1) == Due(!pid, k)
  {
  }

  lemma FirstDue(pid: bool)
    ensures Due(pid, 0) == pid
  {
  }

  /** However the PC's reads fall between them: the packets offered on 0x80 carry alternating PIDs,
      the first of them the one that is due, each with its own bytes. */
  lemma {:induction false} OffersAlternate(e: Ep, steps: seq<Step>)
    requires OneDirection(e, false) && forall s | s in steps :: s.Offer? ==> |s.p| <= MAX_PACKET
    ensures Alternate(Words(e, steps), Offered(steps), e.nextPid)
    decreases |steps|
  {
    hide OneDirection, Started, Alternate, Next;
    if steps == [] {
      NoneAlternate(e.nextPid);
    } else {
      assert steps[0] in steps;
      var e' := Next(e, steps[0]);
      OffersAlternate(e', steps[1..]);
      if steps[0].Offer? {
        OneStep(e, steps[0]);
        OneWord(e, steps[0].p);
        ConsAlternate(Words(e', steps[1..]), Offered(steps[1..]), steps[0].p, e.nextPid);
      } else {
        assert [] + Words(e', steps[1..]) == Words(e', steps[1..]) && [] + Offered(steps[1..]) == Offered(steps[1..]);
      }
    }
  }

  lemma NoneAlternate(pid: bool)
    ensures Alternate([], [], pid)
  {
  }

  lemma OneStep(e: Ep, step: Step)
    requires OneDirection(e, false) && step.Offer? && |step.p| <= MAX_PACKET
    ensures Next(e, step) == Started(e, step.p)
  {
    hide OneDirection, Started;
  }

  /** The steps start on 0x80 what has been armed between two moments but for a status at the end. */
  predicate Starts(before: seq<(byte, seq<byte>)>, after: seq<(byte, seq<byte>)>, steps: seq<Step>) {
    after == before + E2E.Armed(Offered(steps)) + [(0x00, [])]
  }

  /** An answer to a read that the master does not refuse, after a setup packet has set the PIDs
      back, with the packets' completions anywhere between them: what it arms goes out on 0x80 as
      DATA1, DATA0, DATA1 and so on, each with its packet, and the status is taken as a DATA1;
      sections 8.5.3 and 8.5.3.1 of the USB 2.0 specification. */
  lemma AnswerPids(d: Device, ps: seq<seq<byte>>, in0: Ep, out0: Ep, steps: seq<Step>)
    requires PcPace.Answered(d, ps) && !PcPace.Refuses(d, ps) && Sound(d)
    requires OneDirection(in0, false) && OneDirection(out0, true)
    requires (forall s | s in steps :: s.Offer? ==> |s.p| <= MAX_PACKET)
    requires Starts(d.armed, E2E.Poll(d, |ps|).armed, steps)
    ensures var ws := Words(ResetPid(in0), steps);
      |ws| == |ps| && forall k :: 0 <= k < |ps| ==> ws[k].1 == ps[k] && (ws[k].0.data1 <==> k % 2 == 0)
    ensures XferStart(ResetPid(out0), Mem([], 0), 0, Master).ctrl ==
      BufCtrl(0, true, false, true, true, true, false)
  {
    hide E2E.Poll, E2E.Forwarded, Concat, E2E.Collecting, CtrlWord, PcPace.Refuses;
    PcPace.RefusesSays(d, ps);
    E2E.Aggregates(d, ps);
    SameArmed(d.armed, Offered(steps), ps);
    OffersAlternate(ResetPid(in0), steps);
  }

  lemma SameArmed(before: seq<(byte, seq<byte>)>, ps: seq<seq<byte>>, qs: seq<seq<byte>>)
    requires before + E2E.Armed(ps) + [(0x00, [])] == before + E2E.Armed(qs) + [(0x00, [])]
    ensures ps == qs
  {
    var a, b := before + E2E.Armed(ps) + [(0x00, [])], before + E2E.Armed(qs) + [(0x00, [])];
    assert |a| == |b|;
    forall k | 0 <= k < |ps| ensures ps[k] == qs[k] {
      assert a[|before| + k] == (0x80, ps[k]) && b[|before| + k] == (0x80, qs[k]);
    }
  }
}
