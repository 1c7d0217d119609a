/** Splitting a transfer into packets and putting it together again (rp2040_usb.c).

    The functions on `Ep` specify the methods of `HwEndpoint`; the lemmas about transfers are
    stated on them. */
module TransferEngine {
  import opened Common

  /** The fields of a buffer control word for buffer 0.  `len` is a 10-bit field. */
  datatype BufCtrl = BufCtrl(
    len: nat, avail: bool, full: bool, last: bool, data1: bool, sel: bool, stall: bool)

  /** OR-ing the flags in one after another. */
  lemma SetsFlags(len: u16, full: bool, last: bool, data1: bool, sel: bool)
    ensures var c := CtrlWord(len, false, false, false, false);
      CtrlWord(len, full, last, data1, sel) ==
        c.(full := full || c.full, last := last || c.last, data1 := data1 || c.data1, sel := sel || c.sel)
    ensures CtrlWord(len, full, last, data1, sel).avail
  {
  }

  /** The word asks for what was meant exactly if the length fits its field. */
  lemma WordIntactIff(len: u16, full: bool, last: bool, data1: bool, sel: bool)
    ensures CtrlWord(len, full, last, data1, sel) == BufCtrl(len, true, full, last, data1, sel, false) <==> len < 1024
    ensures CtrlWord(len, full, last, data1, sel).len == len % 1024
  {
  }

  /** The bits above the length in a control word, from bit 10 on: available, stall, select, DATA1,
      last, full. */
  function HighBits(c: BufCtrl): seq<bool> {
    [c.avail, c.stall, c.sel, c.data1, c.last, c.full]
  }

  /** For every 16-bit length: each of these bits is set if it was asked for or is set in the length. */
  lemma BitsOred(len: u16, full: bool, last: bool, data1: bool, sel: bool, i: nat)
    requires i < 6
    ensures HighBits(CtrlWord(len, full, last, data1, sel))[i] <==>
      [true, false, sel, data1, last, full][i] || len / [0x400, 0x800, 0x1000, 0x2000, 0x4000, 0x8000][i] % 2 == 1
  {
  }

  /** `user_buf`: the caller's memory and the place in it that the pointer has reached. */
  datatype UserBuf = Null | Mem(bytes: seq<byte>, pos: nat)

  /** The size of `reserve_bugger`, which stands in for a null user buffer. */
  const RESERVE := 64

  const LEN_LIMIT := 1024

  /** A 16-bit length with flags OR-ed into it: what does not fit the length field comes out
      in the fields above it. */
  function CtrlWord(len: u16, full: bool, last: bool, data1: bool, sel: bool): (c: BufCtrl)
    ensures len < LEN_LIMIT ==> c == BufCtrl(len, true, full, last, data1, sel, false)
  {
    BufCtrl(len % LEN_LIMIT, true, full || Has(len, 0x8000), last || Has(len, 0x4000),
            data1 || Has(len, 0x2000), sel || Has(len, 0x1000), Has(len, 0x800))
  }

  datatype Ep = Ep(
    epAddr: byte, devAddr: byte, rx: bool, nextPid: bool, active: bool,
    remaining: u16, xferred: u16, user: UserBuf, mps: u16, ctrl: BufCtrl, hw: seq<byte>)

  function Zeros(n: nat): (z: seq<byte>)
    ensures |z| == n && forall i :: 0 <= i < n ==> z[i] == 0
  {
    if n == 0 then [] else [0] + Zeros(n - 1)
  }

  /** `memcpy` over the start of a buffer, or over the place `pos`. */
  function Write(mem: seq<byte>, pos: nat, data: seq<byte>): (r: seq<byte>)
    requires pos + |data| <= |mem|
    ensures |r| == |mem|
  {
    mem[..pos] + data + mem[pos + |data|..]
  }

  lemma WritesAt(mem: seq<byte>, pos: nat, data: seq<byte>)
    requires pos + |data| <= |mem|
    ensures Write(mem, pos, data)[pos..pos + |data|] == data
    ensures Write(mem, pos, data)[..pos] == mem[..pos]
    ensures Write(mem, pos, data)[pos + |data|..] == mem[pos + |data|..]
  {
  }

  /** `n` bytes can be copied at `off` bytes past the user pointer. */
  predicate Room(u: UserBuf, off: nat, n: nat) {
    n == 0 || (u.Mem? && u.pos + off + n <= |u.bytes|)
  }

  function Peek(u: UserBuf, off: nat, n: nat): (data: seq<byte>)
    requires Room(u, off, n)
    ensures |data| == n
  {
    if n == 0 then [] else u.bytes[u.pos + off..u.pos + off + n]
  }

  function Advance(u: UserBuf, n: nat): UserBuf {
    if u.Mem? then u.(pos := u.pos + n) else u
  }

  // ---------------------------------------------------------------- arming a buffer

  /** A packet that is copied lies in the caller's memory and fits the hardware buffer. */
  predicate CanArm(e: Ep, role: Role) {
    var n := Min(e.remaining, e.mps);
    !e.rx ==> n <= |e.hw| && Room(e.user, if role == Slave then e.xferred else 0, n)
  }

  function DeviceArm(e: Ep): Ep
    requires CanArm(e, Master)
  {
    var n := Min(e.remaining, e.mps);
    e.(remaining := e.remaining - n,
       nextPid := !e.nextPid,
       hw := if e.rx then e.hw else Write(e.hw, 0, Peek(e.user, 0, n)),
       user := if e.rx then e.user else Advance(e.user, n),
       ctrl := CtrlWord(n, !e.rx, e.remaining == n, e.nextPid, true))
  }

  /** The first `n` bytes of the hardware buffer are those of the caller's memory `off` bytes past
      its pointer, and the others are as they were. */
  predicate Copied(hw: seq<byte>, before: seq<byte>, u: UserBuf, off: nat, n: nat) {
    && |hw| == |before| && n <= |hw| && hw[n..] == before[n..]
    && (n > 0 ==>
          && u.Mem? && u.pos + off + n <= |u.bytes|
          && hw[..n] == u.bytes[u.pos + off..u.pos + off + n])
  }

  lemma DeviceArmSays(e: Ep)
    requires CanArm(e, Master)
    ensures var e', n := DeviceArm(e), Min(e.remaining, e.mps);
      if e.rx then e'.hw == e.hw && e'.user == e.user
      else Copied(e'.hw, e.hw, e.user, 0, n) && e'.user == Advance(e.user, n)
  {
    hide CtrlWord, Advance;
    if !e.rx {
      WritesAt(e.hw, 0, Peek(e.user, 0, Min(e.remaining, e.mps)));
    }
  }

  /** `packet_count`: a packet of `n` bytes and those for the `rest` after it. */
  function HostPackets(rest: nat, n: nat, mps: nat): nat
    requires 0 < n <= mps
  {
    1 + (rest + n - 1) / mps
  }

  /** Whether the host flips its data PID when it arms `remaining` bytes in `mps`-sized packets. */
  predicate HostFlips(remaining: nat, mps: nat) {
    var n := Min(remaining, mps);
    n == 0 || HostPackets(remaining - n, n, mps) % 2 == 1
  }

  function HostArm(e: Ep): Ep
    requires CanArm(e, Slave)
  {
    var n := Min(e.remaining, e.mps);
    e.(remaining := e.remaining - n,
       nextPid := if HostFlips(e.remaining, e.mps) then !e.nextPid else e.nextPid,
       hw := if e.rx then e.hw else Write(e.hw, 0, Peek(e.user, e.xferred, n)),
       ctrl := CtrlWord(e.remaining, !e.rx, e.remaining == n, e.nextPid, false))
  }

  lemma HostArmSays(e: Ep)
    requires CanArm(e, Slave)
    ensures var e', n := HostArm(e), Min(e.remaining, e.mps);
      && e'.user == e.user
      && if e.rx then e'.hw == e.hw else Copied(e'.hw, e.hw, e.user, e.xferred, n)
  {
    hide CtrlWord, HostFlips;
    if !e.rx {
      WritesAt(e.hw, 0, Peek(e.user, e.xferred, Min(e.remaining, e.mps)));
    }
  }

  function Arm(e: Ep, role: Role): Ep
    requires CanArm(e, role)
  {
    if role == Master then DeviceArm(e) else HostArm(e)
  }

  function Loaded(e: Ep, buffer: UserBuf, total: u16): Ep {
    e.(remaining := total, xferred := 0, active := true, user := buffer)
  }

  function XferStart(e: Ep, buffer: UserBuf, total: u16, role: Role): Ep
    requires CanArm(Loaded(e, buffer, total), role)
  {
    Arm(Loaded(e, buffer, total), role)
  }

  function ResetTransfer(e: Ep): Ep {
    e.(active := false, remaining := 0, xferred := 0, user := Null)
  }

  // ---------------------------------------------------------------- the controller

  /** What the controller can report for the armed buffer: a packet it sent in full, or one it
      received that is no longer than the armed packet. */
  predicate CanComplete(e: Ep, data: seq<byte>) {
    if e.rx then |data| <= e.ctrl.len && |data| <= |e.hw| else data == []
  }

  function Complete(e: Ep, data: seq<byte>): Ep
    requires CanComplete(e, data)
  {
    if e.rx then e.(hw := Write(e.hw, 0, data), ctrl := e.ctrl.(len := |data|, avail := false, full := true))
    else e.(ctrl := e.ctrl.(avail := false, full := false))
  }

  // ---------------------------------------------------------------- continuing

  /** The reserve buffer replaces a null user buffer that has bytes to take. */
  function Target(e: Ep): UserBuf {
    if e.user.Null? && e.ctrl.len > 0 then Mem(Zeros(RESERVE), 0) else e.user
  }

  predicate CanSync(e: Ep) {
    && e.ctrl.full == e.rx && e.ctrl.len <= |e.hw|
    && (e.rx ==> Room(Target(e), 0, e.ctrl.len))
  }

  function Sync(e: Ep, role: Role): Ep
    requires CanSync(e)
  {
    var n := e.ctrl.len;
    var u := Target(e);
    var stored := if !e.rx || n == 0 then u else u.(bytes := Write(u.bytes, u.pos, e.hw[..n]));
    e.(xferred := (e.xferred + n) % 0x10000,
       active := e.active || (e.rx && e.user.Null? && n > 0),
       user := if !e.rx then e.user else if role == Master then Advance(stored, n) else stored,
       remaining := if n < e.mps || e.mps == 0 then 0 else e.remaining)
  }

  /** A packet that has come lies at the place that the pointer had reached, in the caller's memory or
      in a reserve buffer of 64 bytes, and the bytes before it are as they were. */
  predicate Received(u: UserBuf, before: UserBuf, hw: seq<byte>, n: nat, role: Role) {
    var from := if before.Null? then Mem(Zeros(64), 0) else before;
    && n <= |hw| && u.Mem? && |u.bytes| == |from.bytes| && from.pos + n <= |u.bytes|
    && u.bytes[from.pos..from.pos + n] == hw[..n] && u.bytes[..from.pos] == from.bytes[..from.pos]
    && u.bytes[from.pos + n..] == from.bytes[from.pos + n..]
    && u.pos == if role == Master then from.pos + n else from.pos
  }

  lemma SyncSays(e: Ep, role: Role)
    requires CanSync(e)
    ensures var e' := Sync(e, role);
      && (!e.rx ==> e'.user == e.user)
      && (e.rx && e.ctrl.len > 0 ==>
            Received(e'.user, e.user, e.hw, e.ctrl.len, role) && (e.user.Null? ==> e'.active))
  {
    hide Zeros, Write;
    if e.rx && e.ctrl.len > 0 { WritesAt(Target(e).bytes, Target(e).pos, e.hw[..e.ctrl.len]); }
  }

  predicate CanContinue(e: Ep, role: Role) {
    CanSync(e) && (Sync(e, role).remaining > 0 ==> CanArm(Sync(e, role), role))
  }

  /** The endpoint after one buffer status, and whether its transfer is complete. */
  function Continue(e: Ep, role: Role): (Ep, bool)
    requires CanContinue(e, role)
  {
    var s := Sync(e, role);
    if s.remaining == 0 then (s, true) else (Arm(s, role), false)
  }

  lemma KeepsMemory(e: Ep, role: Role)
    requires CanContinue(e, role)
    ensures e.user.Mem? ==> Continue(e, role).0.user.Mem?
  {
    hide CtrlWord, Write, Peek, HostFlips;
  }

  // ---------------------------------------------------------------- the code

  class HwEndpoint {
    const role: Role
    var epAddr: byte
    var devAddr: byte
    var rx: bool
    var nextPid: bool
    var active: bool
    var remainingLen: u16
    var xferredLen: u16
    var userBuf: UserBuf
    var wMaxPacketSize: u16
    var bufferControl: BufCtrl
    var hwDataBuf: seq<byte>

    function View(): Ep
      reads this
    {
      Ep(epAddr, devAddr, rx, nextPid, active, remainingLen, xferredLen, userBuf, wMaxPacketSize,
         bufferControl, hwDataBuf)
    }

    constructor (role: Role, epAddr: byte, rx: bool, nextPid: bool, mps: u16, size: nat)
      ensures this.role == role
      ensures View() == Ep(epAddr, 0, rx, nextPid, false, 0, 0, Null, mps,
                           BufCtrl(0, false, false, false, false, false, false), Zeros(size))
    {
      this.role, this.epAddr, this.devAddr, this.rx, this.nextPid := role, epAddr, 0, rx, nextPid;
      active, remainingLen, xferredLen, userBuf, wMaxPacketSize := false, 0, 0, Null, mps;
      bufferControl, hwDataBuf := BufCtrl(0, false, false, false, false, false, false), Zeros(size);
    }

    method ResetTransferNew()
      modifies this
      ensures View() == ResetTransfer(old(View()))
      ensures !active && remainingLen == 0 && xferredLen == 0 && userBuf.Null?
      ensures bufferControl == old(bufferControl) && nextPid == old(nextPid) && hwDataBuf == old(hwDataBuf)
    {
      active := false;
      remainingLen := 0;
      xferredLen := 0;
      userBuf := Null;
    }

    /** The device's buffer 0; `ctrl` is the word to write.  A packet of at most the packet size
        is taken off what remains, with the PID that is due; when sent it is copied from where
        the caller's pointer stands, and the pointer moves past it. */
    method PrepareEpBuffer() returns (ctrl: BufCtrl)
      requires CanArm(View(), Master)
      modifies this
      ensures View().(ctrl := ctrl.(sel := true)) == DeviceArm(old(View()))
      ensures bufferControl == old(bufferControl) && nextPid == !old(nextPid)
      ensures var n := old(remainingLen) - remainingLen;
        && 0 <= n <= wMaxPacketSize && (n == wMaxPacketSize || remainingLen == 0)
        && (n < LEN_LIMIT ==> ctrl == BufCtrl(n, true, !rx, remainingLen == 0, old(nextPid), false, false))
        && (rx ==> hwDataBuf == old(hwDataBuf) && userBuf == old(userBuf))
        && (!rx ==> Copied(hwDataBuf, old(hwDataBuf), old(userBuf), 0, n) && userBuf == Advance(old(userBuf), n))
    {
      hide CtrlWord, Write, Peek, Advance, Room, Copied, Has;
      DeviceArmSays(View());
      var buflen := Min(remainingLen, wMaxPacketSize);
      SetsFlags(buflen, !rx, remainingLen == buflen, nextPid, true);
      remainingLen := remainingLen - buflen;
      ctrl := CtrlWord(buflen, false, false, false, false);
      if nextPid {
        ctrl := ctrl.(data1 := true);
      }
      nextPid := !nextPid;
      if !rx {
        hwDataBuf := Write(hwDataBuf, 0, Peek(userBuf, 0, buflen));
        userBuf := Advance(userBuf, buflen);
        ctrl := ctrl.(full := true);
      }
      if remainingLen == 0 {
        ctrl := ctrl.(last := true);
      }
    }

    /** The packets of all that remains, of which the next has `buflen` bytes, decide the PID of the
        transfer after it: an odd number of them flips it. */
    method CountPackets(buflen: nat)
      requires buflen <= wMaxPacketSize && (buflen == 0 ==> remainingLen == 0 || wMaxPacketSize == 0)
      requires buflen < wMaxPacketSize ==> remainingLen == 0
      modifies `nextPid
      ensures nextPid == if HostFlips(remainingLen + buflen, wMaxPacketSize) then !old(nextPid) else old(nextPid)
    {
      hide HostPackets;
      if buflen == 0 {
        nextPid := !nextPid;
      } else {
        var packetCount := HostPackets(remainingLen, buflen, wMaxPacketSize);
        if packetCount % 2 == 1 {
          nextPid := !nextPid;
        }
      }
    }

    /** The host arms all that remains at once, with the PID that is due, and counts packets to
        know the PID of the transfer after it. */
    method PrepareHostBuffer()
      requires CanArm(View(), Slave)
      modifies this
      ensures View() == HostArm(old(View()))
      ensures bufferControl.avail
      ensures remainingLen == old(remainingLen) - Min(old(remainingLen), wMaxPacketSize)
      ensures old(remainingLen) < LEN_LIMIT ==>
        bufferControl == BufCtrl(old(remainingLen), true, !rx, remainingLen == 0, old(nextPid), false, false)
      ensures userBuf == old(userBuf) && xferredLen == old(xferredLen)
      ensures rx ==> hwDataBuf == old(hwDataBuf)
      ensures !rx ==>
        Copied(hwDataBuf, old(hwDataBuf), userBuf, xferredLen, Min(old(remainingLen), wMaxPacketSize))
    {
      hide CtrlWord, Write, Peek, HostFlips, Copied, Has, Room, Advance;
      HostArmSays(View());
      SetsFlags(remainingLen, !rx, remainingLen == Min(remainingLen, wMaxPacketSize), nextPid, false);
      var val := CtrlWord(remainingLen, false, false, false, false);
      var buflen := Min(remainingLen, wMaxPacketSize);
      remainingLen := remainingLen - buflen;
      if !rx {
        hwDataBuf := Write(hwDataBuf, 0, Peek(userBuf, xferredLen, buflen));
        val := val.(full := true);
      }
      if nextPid {
        val := val.(data1 := true);
      }
      CountPackets(buflen);
      if remainingLen == 0 {
        val := val.(last := true);
      }
      bufferControl := val;
    }

    /** One buffer is armed with the PID that is due. */
    method StartNextBuffer()
      requires CanArm(View(), role)
      modifies this
      ensures View() == Arm(old(View()), role)
      ensures bufferControl.avail
      ensures remainingLen == old(remainingLen) - Min(old(remainingLen), wMaxPacketSize)
      ensures var armed := if role == Master then old(remainingLen) - remainingLen else old(remainingLen);
        armed < LEN_LIMIT ==>
          bufferControl == BufCtrl(armed, true, !rx, remainingLen == 0, old(nextPid), role == Master, false)
      ensures role == Master ==> nextPid == !old(nextPid)
      ensures role == Slave ==> userBuf == old(userBuf) && xferredLen == old(xferredLen)
      ensures rx ==> hwDataBuf == old(hwDataBuf)
      ensures !rx ==>
        Copied(hwDataBuf, old(hwDataBuf), old(userBuf), if role == Slave then xferredLen else 0,
               Min(old(remainingLen), wMaxPacketSize))
    {
      hide DeviceArm, HostArm, CanArm, Copied;
      if role == Master {
        ArmedAvail(View());
        var ctrl := PrepareEpBuffer();
        bufferControl := ctrl.(sel := true);
      } else {
        PrepareHostBuffer();
      }
    }

    lemma ArmedAvail(e: Ep)
      requires CanArm(e, Master)
      ensures DeviceArm(e).ctrl.avail && DeviceArm(e).rx == e.rx && DeviceArm(e).mps == e.mps
    {
      hide CtrlWord;
      SetsFlags(Min(e.remaining, e.mps), !e.rx, e.remaining == Min(e.remaining, e.mps), e.nextPid, true);
    }

    /** A transfer of `totalLen` bytes begins, whatever went before it. */
    method Start(buffer: UserBuf, totalLen: u16)
      requires CanArm(Loaded(View(), buffer, totalLen), role)
      modifies this
      ensures View() == XferStart(old(View()), buffer, totalLen, role)
      ensures active && xferredLen == 0 && bufferControl.avail
      ensures remainingLen == totalLen - Min(totalLen, wMaxPacketSize)
      ensures rx || role == Slave ==> userBuf == buffer
      ensures rx ==> hwDataBuf == old(hwDataBuf)
      ensures !rx ==> Copied(hwDataBuf, old(hwDataBuf), buffer, 0, Min(totalLen, wMaxPacketSize))
    {
      hide Copied;
      if active {
        ResetTransferNew();
      }
      remainingLen := totalLen;
      xferredLen := 0;
      active := true;
      userBuf := buffer;
      StartNextBuffer();
    }

    /** The finished packet is counted, a received one is copied to where the caller's pointer
        stands, and a short one, or any before the packet size is known, ends the transfer. */
    method SyncEpBuffer() returns (xferredBytes: nat)
      requires CanSync(View())
      modifies this
      ensures View() == Sync(old(View()), role)
      ensures xferredBytes == old(bufferControl.len)
      ensures xferredLen == (old(xferredLen) + xferredBytes) % 0x10000
      ensures remainingLen ==
        if xferredBytes < wMaxPacketSize || wMaxPacketSize == 0 then 0 else old(remainingLen)
      ensures !rx ==> userBuf == old(userBuf)
      ensures rx && xferredBytes > 0 ==> Received(userBuf, old(userBuf), hwDataBuf, xferredBytes, role)
      ensures rx && xferredBytes > 0 && old(userBuf).Null? ==> active
    {
      hide Write, Zeros, Received;
      SyncSays(View(), role);
      xferredBytes := bufferControl.len;
      if !rx {
        xferredLen := (xferredLen + xferredBytes) % 0x10000;
      } else {
        if userBuf.Null? && xferredBytes > 0 {
          active := true;
          userBuf := Mem(Zeros(RESERVE), 0);
        }
        if xferredBytes > 0 {
          userBuf := userBuf.(bytes := Write(userBuf.bytes, userBuf.pos, hwDataBuf[..xferredBytes]));
        }
        xferredLen := (xferredLen + xferredBytes) % 0x10000;
        if role == Master {
          userBuf := Advance(userBuf, xferredBytes);
        }
      }
      if xferredBytes < wMaxPacketSize || wMaxPacketSize == 0 {
        remainingLen := 0;
      }
    }

    /** Complete exactly when nothing remains or the packet was short; else the next is armed. */
    method XferContinue() returns (done: bool)
      requires CanContinue(View(), role)
      modifies this
      ensures (View(), done) == Continue(old(View()), role)
      ensures done <==>
        old(remainingLen) == 0 || old(bufferControl.len) < wMaxPacketSize || wMaxPacketSize == 0
      ensures xferredLen == (old(xferredLen) + old(bufferControl.len)) % 0x10000
      ensures !done ==>
        bufferControl.avail && remainingLen == old(remainingLen) - Min(old(remainingLen), wMaxPacketSize)
      ensures done ==> bufferControl == old(bufferControl) && nextPid == old(nextPid)
    {
      var n := SyncEpBuffer();
      if remainingLen == 0 {
        return true;
      }
      StartNextBuffer();
      return false;
    }
  }
}
