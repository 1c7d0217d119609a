/** Whole transfers of the device: split on the way in to the host, reassembled on the way out. */
module DeviceTransfers {
  import opened Common
  import opened TransferEngine

  /** The packets a buffer is cut into: full ones, then one with the rest; never none. */
  function Chunks(b: seq<byte>, m: nat): (cs: seq<seq<byte>>)
    requires m > 0
    ensures cs != []
    decreases |b|
  {
    if |b| <= m then [b] else [b[..m]] + Chunks(b[m..], m)
  }

  lemma ChunksConcat(b: seq<byte>, m: nat)
    requires m > 0
    ensures Concat(Chunks(b, m)) == b
    decreases |b|
  {
    if |b| <= m {
      assert [b][1..] == [];
    } else {
      ChunksConcat(b[m..], m);
      assert ([b[..m]] + Chunks(b[m..], m))[1..] == Chunks(b[m..], m);
    }
  }

  /** max(1, ceil(total / m)) */
  function PacketCount(total: nat, m: nat): nat
    requires m > 0
  {
    if total == 0 then 1 else (total + m - 1) / m
  }

  lemma CountStep(total: nat, m: nat)
    requires m > 0 && total > m
    ensures PacketCount(total, m) == 1 + PacketCount(total - m, m)
  {
    var x := total - m + m - 1;
    assert x == m * (x / m) + x % m;
    assert x + m == m * (x / m + 1) + x % m;
    DivIs(x + m, m, x / m + 1, x % m);
  }

  lemma ChunksCount(b: seq<byte>, m: nat)
    requires m > 0
    ensures |Chunks(b, m)| == PacketCount(|b|, m)
    decreases |b|
  {
    if |b| > m {
      CountStep(|b|, m);
      ChunksCount(b[m..], m);
    } else if b != [] {
      DivIs(|b| + m - 1, m, 1, |b| - 1);
    }
  }

  /** Chunk `k` starts `k * m` bytes in. */
  lemma ChunkAt(b: seq<byte>, m: nat, k: nat)
    requires m > 0 && k < |Chunks(b, m)|
    ensures k * m <= |b| && Chunks(b, m)[k] == b[k * m..k * m + Min(m, |b| - k * m)]
    ensures k + 1 < |Chunks(b, m)| <==> k * m + m < |b|
    decreases |b|
  {
    if |b| > m && k > 0 {
      ChunkAt(b[m..], m, k - 1);
      assert k * m == (k - 1) * m + m;
    }
  }

  // ---------------------------------------------------------------- device IN

  /** The states of one IN transfer, each with a buffer armed: the controller completes the
      buffer, the engine goes on. */
  ghost predicate InTrace(t: seq<Ep>, e: Ep, buffer: seq<byte>)
    requires InReady(e, buffer)
  {
    && |t| > 0 && t[0] == XferStart(e, Mem(buffer, 0), |buffer|, Master)
    && forall i :: 0 <= i < |t| - 1 ==> InStep(t[i], t[i + 1])
  }

  ghost predicate InStep(e: Ep, e': Ep) {
    && CanComplete(e, []) && CanContinue(Complete(e, []), Master)
    && Continue(Complete(e, []), Master) == (e', false)
  }

  /** An IN endpoint with a free pointer to `buffer` and a hardware buffer for one packet. */
  predicate InReady(e: Ep, buffer: seq<byte>) {
    !e.rx && 0 < e.mps < LEN_LIMIT && e.mps <= |e.hw| && |buffer| < 0x10000
  }

  /** State with `k` packets gone and packet `k` armed. */
  ghost predicate InState(e: Ep, buffer: seq<byte>, m: nat, pid: bool, k: nat)
    requires m > 0
  {
    && !e.rx && e.mps == m && m < LEN_LIMIT && m <= |e.hw| && |buffer| < 0x10000
    && k < |Chunks(buffer, m)|
    && e.ctrl.avail && e.ctrl.full
    && e.xferred == k * m
    && e.ctrl.len == |Chunks(buffer, m)[k]| && e.ctrl.len <= m
    && e.hw[..e.ctrl.len] == Chunks(buffer, m)[k]
    && e.user == Mem(buffer, k * m + e.ctrl.len)
    && e.xferred + e.ctrl.len + e.remaining == |buffer|
    && (e.remaining > 0 ==> e.ctrl.len == m)
    && (e.remaining == 0 <==> k + 1 == |Chunks(buffer, m)|)
    && e.ctrl.data1 == (pid == (k % 2 == 0))
    && e.nextPid == !e.ctrl.data1
  }

  lemma InStarts(e: Ep, buffer: seq<byte>)
    requires InReady(e, buffer)
    ensures InState(XferStart(e, Mem(buffer, 0), |buffer|, Master), buffer, e.mps, e.nextPid, 0)
  {
    InArms(Loaded(e, Mem(buffer, 0), |buffer|), buffer, e.mps, e.nextPid, 0);
  }

  lemma SyncsIn(e: Ep)
    requires !e.rx && e.user.Mem? && e.mps > 0 && e.ctrl.len <= |e.hw|
    ensures CanComplete(e, []) && CanSync(Complete(e, []))
    ensures Sync(Complete(e, []), Master) ==
      e.(ctrl := e.ctrl.(avail := false, full := false), xferred := (e.xferred + e.ctrl.len) % 0x10000,
         remaining := if e.ctrl.len < e.mps then 0 else e.remaining)
  {
  }

  lemma InContinues(e: Ep, buffer: seq<byte>, m: nat, pid: bool, k: nat)
    requires m > 0 && InState(e, buffer, m, pid, k)
    ensures CanComplete(e, []) && CanContinue(Complete(e, []), Master)
    ensures var (e', done) := Continue(Complete(e, []), Master);
      && done == (k + 1 == |Chunks(buffer, m)|)
      && (done ==> e'.xferred == |buffer|)
      && (!done ==> InState(e', buffer, m, pid, k + 1))
  {
    hide Chunks;
    var s := Sync(Complete(e, []), Master);
    SyncsIn(e);
    hide Sync, Complete, CanArm, DeviceArm;
    assert s.xferred == k * m + e.ctrl.len && s.remaining == e.remaining;
    if e.remaining > 0 {
      assert (k + 1) * m == k * m + m;
      InArms(s, buffer, m, pid, k + 1);
    }
  }

  /** Arming the next packet when `k` full ones are gone. */
  lemma InArms(s: Ep, buffer: seq<byte>, m: nat, pid: bool, k: nat)
    requires m > 0 && k < |Chunks(buffer, m)|
    requires !s.rx && s.mps == m && m < LEN_LIMIT && m <= |s.hw| && |buffer| < 0x10000
    requires s.xferred == k * m && s.user == Mem(buffer, k * m) && s.remaining == |buffer| - k * m
    requires s.nextPid == (pid == (k % 2 == 0))
    ensures CanArm(s, Master) && InState(DeviceArm(s), buffer, m, pid, k)
  {
    ChunkAt(buffer, m, k);
    hide Chunks;
    ArmsSlice(s, buffer, k * m);
    hide DeviceArm;
  }

  /** Arming an IN endpoint whose pointer is `off` bytes into the buffer. */
  lemma ArmsSlice(s: Ep, buffer: seq<byte>, off: nat)
    requires !s.rx && s.mps < LEN_LIMIT && s.mps <= |s.hw|
    requires s.user == Mem(buffer, off) && off + s.remaining == |buffer|
    ensures CanArm(s, Master)
    ensures var n := Min(s.remaining, s.mps);
      var e := DeviceArm(s);
      && |e.hw| == |s.hw| && e.hw[..n] == buffer[off..off + n]
      && e == s.(remaining := s.remaining - n, nextPid := !s.nextPid, hw := e.hw, user := Mem(buffer, off + n),
                 ctrl := BufCtrl(n, true, true, s.remaining == n, s.nextPid, true, false))
  {
  }

  lemma StateSplits(s: Ep, buffer: seq<byte>, m: nat, pid: bool, k: nat)
    requires m > 0 && InState(s, buffer, m, pid, k)
    ensures k < |Chunks(buffer, m)| && s.user.Mem? && s.ctrl.len <= |s.hw| && s.user.pos <= |buffer|
    ensures s.hw[..s.ctrl.len] == Chunks(buffer, m)[k]
    ensures Concat(Chunks(buffer, m)[..k]) + s.hw[..s.ctrl.len] + buffer[s.user.pos..] == buffer
    ensures s.xferred + s.ctrl.len + s.remaining == |buffer|
    ensures s.ctrl.data1 == (pid == (k % 2 == 0))
  {
    hide Chunks, Concat;
    SentPrefix(buffer, m, k);
    ChunkAt(buffer, m, k);
    Thirds(buffer, k * m, s.user.pos);
  }

  lemma Thirds(b: seq<byte>, p: nat, q: nat)
    requires p <= q <= |b|
    ensures b[..p] + b[p..q] + b[q..] == b
  {
  }

  /** Every reachable state of every IN transfer: the packets already sent, the armed one and
      the unsent tail make up the caller's buffer; the lengths add up; PIDs alternate. */
  lemma InConservation(t: seq<Ep>, e: Ep, buffer: seq<byte>, i: nat)
    requires InReady(e, buffer) && InTrace(t, e, buffer) && i < |t|
    ensures |t| <= PacketCount(|buffer|, e.mps) == |Chunks(buffer, e.mps)|
    ensures t[i].ctrl.len <= |t[i].hw| && t[i].user.Mem? && t[i].user.pos <= |buffer|
    ensures t[i].hw[..t[i].ctrl.len] == Chunks(buffer, e.mps)[i]
    ensures Concat(Chunks(buffer, e.mps)[..i]) + t[i].hw[..t[i].ctrl.len] + buffer[t[i].user.pos..] == buffer
    ensures t[i].xferred + t[i].ctrl.len + t[i].remaining == |buffer|
    ensures t[i].ctrl.data1 == (e.nextPid == (i % 2 == 0))
  {
    hide Chunks, Concat, PacketCount, InState, InTrace;
    ChunksCount(buffer, e.mps);
    InStates(t, e, buffer, |t| - 1);
    StateSplits(t[|t| - 1], buffer, e.mps, e.nextPid, |t| - 1);
    InStates(t, e, buffer, i);
    StateSplits(t[i], buffer, e.mps, e.nextPid, i);
  }

  lemma {:induction false} InStates(t: seq<Ep>, e: Ep, buffer: seq<byte>, i: nat)
    requires InReady(e, buffer) && InTrace(t, e, buffer) && i < |t|
    ensures InState(t[i], buffer, e.mps, e.nextPid, i)
  {
    if i == 0 {
      InStarts(e, buffer);
    } else {
      InStates(t, e, buffer, i - 1);
      assert InStep(t[i - 1], t[i - 1 + 1]);
      InContinues(t[i - 1], buffer, e.mps, e.nextPid, i - 1);
    }
  }

  /** The first `k` packets are the first `k * m` bytes. */
  lemma SentPrefix(buffer: seq<byte>, m: nat, k: nat)
    requires m > 0 && k < |Chunks(buffer, m)|
    ensures k * m <= |buffer| && Concat(Chunks(buffer, m)[..k]) == buffer[..k * m]
  {
    if k > 0 {
      SentPrefix(buffer, m, k - 1);
      ChunkAt(buffer, m, k - 1);
      assert Chunks(buffer, m)[..k] == Chunks(buffer, m)[..k - 1] + [Chunks(buffer, m)[k - 1]];
      ConcatSnoc(Chunks(buffer, m)[..k - 1], Chunks(buffer, m)[k - 1]);
      assert k * m == (k - 1) * m + m;
      assert buffer[..k * m] == buffer[..(k - 1) * m] + buffer[(k - 1) * m..k * m];
    }
  }

  /** The transfer goes on until exactly max(1, ceil(total / mps)) packets are gone, and is
      reported complete then, with every byte counted. */
  lemma InCompletes(t: seq<Ep>, e: Ep, buffer: seq<byte>)
    requires InReady(e, buffer) && InTrace(t, e, buffer)
    ensures var last := t[|t| - 1];
      && CanComplete(last, []) && CanContinue(Complete(last, []), Master)
      && var (e', done) := Continue(Complete(last, []), Master);
      && (done <==> |t| == PacketCount(|buffer|, e.mps))
      && (done ==> e'.xferred == |buffer| && Concat(Chunks(buffer, e.mps)) == buffer)
  {
    ChunksCount(buffer, e.mps);
    ChunksConcat(buffer, e.mps);
    InStates(t, e, buffer, |t| - 1);
    InContinues(t[|t| - 1], buffer, e.mps, e.nextPid, |t| - 1);
  }

  // ---------------------------------------------------------------- device OUT

  /** The states of one OUT transfer in which the host sends the packets `ps`. */
  ghost predicate OutTrace(t: seq<Ep>, ps: seq<seq<byte>>, e: Ep, mem: seq<byte>, total: u16)
    requires OutReady(e, mem, total)
  {
    && |t| == |ps| + 1 && t[0] == XferStart(e, Mem(mem, 0), total, Master)
    && forall i :: 0 <= i < |ps| ==> OutStep(t[i], ps[i], t[i + 1])
  }

  ghost predicate OutStep(e: Ep, p: seq<byte>, e': Ep) {
    && CanComplete(e, p) && CanContinue(Complete(e, p), Master)
    && Continue(Complete(e, p), Master) == (e', false)
  }

  predicate OutReady(e: Ep, mem: seq<byte>, total: u16) {
    e.rx && 0 < e.mps < LEN_LIMIT && e.mps <= |e.hw| && total <= |mem|
  }

  /** State in which `got` has been received and the next packet is awaited. */
  ghost predicate OutState(e: Ep, mem: seq<byte>, total: u16, m: nat, got: seq<byte>) {
    && e.rx && e.mps == m && 0 < m < LEN_LIMIT && m <= |e.hw| && total <= |mem|
    && |got| <= total && (|got| < total || total == 0)
    && e.user == Mem(got + mem[|got|..], |got|)
    && e.xferred == |got|
    && e.ctrl.avail && !e.ctrl.full
    && e.ctrl.len == Min(m, total - |got|)
    && e.remaining == total - |got| - e.ctrl.len
  }

  lemma OutStarts(e: Ep, mem: seq<byte>, total: u16)
    requires OutReady(e, mem, total)
    ensures OutState(XferStart(e, Mem(mem, 0), total, Master), mem, total, e.mps, [])
  {
    assert [] + mem[0..] == mem;
  }

  lemma OutContinues(e: Ep, mem: seq<byte>, total: u16, m: nat, got: seq<byte>, p: seq<byte>)
    requires OutState(e, mem, total, m, got) && CanComplete(e, p)
    ensures CanContinue(Complete(e, p), Master)
    ensures var (e', done) := Continue(Complete(e, p), Master);
      && |got + p| <= total
      && (done <==> |p| < m || |got + p| == total)
      && e'.user == Mem(got + p + mem[|got + p|..], |got + p|)
      && e'.xferred == |got + p|
      && (!done ==> OutState(e', mem, total, m, got + p))
  {
    hide CtrlWord;
    var c := Complete(e, p);
    assert c.hw[..|p|] == p;
    assert Write(got + mem[|got|..], |got|, p) == got + p + mem[|got + p|..];
    if p == [] {
      assert got + p == got;
    }
  }

  lemma {:induction false} OutStates(t: seq<Ep>, ps: seq<seq<byte>>, e: Ep, mem: seq<byte>, total: u16)
    requires OutReady(e, mem, total) && OutTrace(t, ps, e, mem, total)
    ensures OutState(t[|ps|], mem, total, e.mps, Concat(ps))
    decreases |ps|
  {
    if ps == [] {
      OutStarts(e, mem, total);
    } else {
      var n := |ps| - 1;
      OutStates(t[..n + 1], ps[..n], e, mem, total);
      assert ps == ps[..n] + [ps[n]];
      ConcatSnoc(ps[..n], ps[n]);
      assert OutStep(t[n], ps[n], t[n + 1]);
      OutContinues(t[n], mem, total, e.mps, Concat(ps[..n]), ps[n]);
    }
  }

  /** After any packets no longer than armed, the caller's memory holds their concatenation and
      is otherwise untouched, the count never exceeds the total, and the transfer is complete
      exactly when a short packet comes or the total is filled. */
  lemma OutReassembles(t: seq<Ep>, ps: seq<seq<byte>>, p: seq<byte>, e: Ep, mem: seq<byte>, total: u16)
    requires OutReady(e, mem, total) && OutTrace(t, ps, e, mem, total) && CanComplete(t[|ps|], p)
    ensures CanContinue(Complete(t[|ps|], p), Master)
    ensures var (e', done) := Continue(Complete(t[|ps|], p), Master);
      var got := Concat(ps + [p]);
      && |got| <= total && e'.xferred == |got|
      && e'.user == Mem(got + mem[|got|..], |got|)
      && (done <==> |p| < e.mps || |got| == total)
  {
    OutStates(t, ps, e, mem, total);
    ConcatSnoc(ps, p);
    OutContinues(t[|ps|], mem, total, e.mps, Concat(ps), p);
  }
}
