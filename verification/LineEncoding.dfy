/** The line encoder and the reader's decoding step (legacy/usb_pio/pio_usb.c, pio_usb.h,
    legacy/bit/bit.h).  The encoder is modelled as written: its run counter never passes 1. */
module LineEncoding {
  import opened Common

  type octet = bv8

  /** `bit_t` */
  type bit = x: int | 0 <= x <= 1

  // ---------------------------------------------------------------- bit.h

  /** `0b111 ^ (i & 0b111)` */
  function Shift(i: nat): bv8 {
    var k := i % 8;
    if k == 0 then 7 else if k == 1 then 6 else if k == 2 then 5 else if k == 3 then 4
    else if k == 4 then 3 else if k == 5 then 2 else if k == 6 then 1 else 0
  }

  function OctetBit(x: octet, k: bv8): bit
    requires k < 8
  {
    if (x >> k) & 1 == 1 then 1 else 0
  }

  function OctetWith(x: octet, k: bv8, b: bit): octet
    requires k < 8
  {
    var v: bv8 := if b == 1 then 1 else 0;
    (x & !(1 << k)) | (v << k)
  }

  function GetBit(a: seq<octet>, i: nat): bit
    requires i / 8 < |a|
  {
    OctetBit(a[i / 8], Shift(i))
  }

  function SetBit(a: seq<octet>, i: nat, b: bit): seq<octet>
    requires i / 8 < |a|
  {
    a[i / 8 := OctetWith(a[i / 8], Shift(i), b)]
  }

  /** The bits of an octet in the order of the array: the highest first. */
  lemma HighestFirst(a: seq<octet>, i: nat)
    requires i < |a|
    ensures a[i] as int ==
      128 * GetBit(a, 8 * i) + 64 * GetBit(a, 8 * i + 1) + 32 * GetBit(a, 8 * i + 2) + 16 * GetBit(a, 8 * i + 3)
      + 8 * GetBit(a, 8 * i + 4) + 4 * GetBit(a, 8 * i + 5) + 2 * GetBit(a, 8 * i + 6) + GetBit(a, 8 * i + 7)
  {
    hide OctetBit, GetBit;
    SumOfBits(a[i]);
    BitAt(a, i, 0, 7);
    BitAt(a, i, 1, 6);
    BitAt(a, i, 2, 5);
    BitAt(a, i, 3, 4);
    BitAt(a, i, 4, 3);
    BitAt(a, i, 5, 2);
    BitAt(a, i, 6, 1);
    BitAt(a, i, 7, 0);
  }

  lemma BitAt(a: seq<octet>, i: nat, k: nat, shift: bv8)
    requires i < |a| && k < 8 && shift == Shift(k)
    ensures (8 * i + k) / 8 < |a| && shift < 8 && GetBit(a, 8 * i + k) == OctetBit(a[i], shift)
  {
    hide OctetBit;
    assert (8 * i + k) / 8 == i && (8 * i + k) % 8 == k;
  }

  lemma SumOfBits(x: octet)
    ensures x as int ==
      128 * OctetBit(x, 7) + 64 * OctetBit(x, 6) + 32 * OctetBit(x, 5) + 16 * OctetBit(x, 4)
      + 8 * OctetBit(x, 3) + 4 * OctetBit(x, 2) + 2 * OctetBit(x, 1) + OctetBit(x, 0)
  {
  }

  lemma SetOctet(x: octet, k: bv8, b: bit, m: bv8)
    requires k < 8 && m < 8
    ensures OctetBit(OctetWith(x, k, b), m) == if k == m then b else OctetBit(x, m)
  {
  }

  /** Setting a bit gives that bit back and leaves every other one alone. */
  lemma GetSet(a: seq<octet>, i: nat, b: bit, j: nat)
    requires i / 8 < |a| && j / 8 < |a|
    ensures GetBit(SetBit(a, i, b), j) == if i == j then b else GetBit(a, j)
  {
    hide OctetBit, OctetWith;
    SetOctet(a[i / 8], Shift(i), b, Shift(j));
    if i / 8 == j / 8 && i != j {
      assert i % 8 != j % 8;
      assert Shift(i) != Shift(j);
    }
  }

  lemma SameOctet(x: octet, y: octet)
    requires OctetBit(x, 0) == OctetBit(y, 0) && OctetBit(x, 1) == OctetBit(y, 1)
    requires OctetBit(x, 2) == OctetBit(y, 2) && OctetBit(x, 3) == OctetBit(y, 3)
    requires OctetBit(x, 4) == OctetBit(y, 4) && OctetBit(x, 5) == OctetBit(y, 5)
    requires OctetBit(x, 6) == OctetBit(y, 6) && OctetBit(x, 7) == OctetBit(y, 7)
    ensures x == y
  {
  }

  // ---------------------------------------------------------------- levels and symbols

  /** `nrzi`: 1 ^ a ^ b */
  function Nrzi(a: bit, b: bit): bit { (1 + a + b) % 2 }

  function Last(levels: seq<bit>): bit {
    if levels == [] then 0 else levels[|levels| - 1]
  }

  /** The line levels of some bits, from the idle level 0. */
  function Levels(bits: seq<bit>): (ls: seq<bit>)
    ensures |ls| == |bits|
  {
    if bits == [] then []
    else
      var before := Levels(bits[..|bits| - 1]);
      before + [Nrzi(bits[|bits| - 1], Last(before))]
  }

  /** The reader's step over levels. */
  function Decode(levels: seq<bit>): (bits: seq<bit>)
    ensures |bits| == |levels|
  {
    if levels == [] then []
    else
      var n := |levels| - 1;
      Decode(levels[..n]) + [Nrzi(levels[n], Last(levels[..n]))]
  }

  lemma NrziTwice(b: bit, last: bit)
    ensures Nrzi(Nrzi(b, last), last) == b
  {
  }

  /** Section 7.1.8 of the USB 2.0 specification: decoding the levels gives back the bits. */
  lemma {:induction false} DecodesLevels(bits: seq<bit>)
    ensures Decode(Levels(bits)) == bits
  {
    hide Nrzi;
    if bits != [] {
      var n := |bits| - 1;
      DecodesLevels(bits[..n]);
      assert Levels(bits)[..n] == Levels(bits[..n]);
      assert bits == bits[..n] + [bits[n]];
      NrziTwice(bits[n], Last(Levels(bits[..n])));
    }
  }

  /** The two lines as a number: D- and D+. */
  function Symbol(level: bit): (s: nat)
    ensures s == if level == 0 then K else J
  {
    2 * (1 - level) + level
  }

  function Symbols(levels: seq<bit>): (ss: seq<nat>)
    ensures |ss| == |levels| && forall i :: 0 <= i < |ss| ==> ss[i] == Symbol(levels[i])
  {
    if levels == [] then [] else Symbols(levels[..|levels| - 1]) + [Symbol(levels[|levels| - 1])]
  }

  const K := 2
  const J := 1
  const SE0 := 0

  /** KJKJKJKK, and the word that the code starts with. */
  function Sync(): (ss: seq<nat>)
    ensures |ss| == 8
  {
    [K, J, K, J, K, J, K, K]
  }

  const USB_SYNC := 0x999A

  // ---------------------------------------------------------------- packing

  function Pow4(n: nat): nat { if n == 0 then 1 else 4 * Pow4(n - 1) }

  /** `x << 2 * n` on unbounded numbers. */
  function Shl2(x: nat, n: nat): nat { if n == 0 then x else 4 * Shl2(x, n - 1) }

  predicate AreSymbols(ss: seq<nat>) { forall i | 0 <= i < |ss| :: ss[i] < 4 }

  function Pack(ss: seq<nat>): nat {
    if ss == [] then 0 else 4 * Pack(ss[..|ss| - 1]) + ss[|ss| - 1]
  }

  /** The lowest `n` symbols of a word, first one first. */
  function Unpack(w: nat, n: nat): (ss: seq<nat>)
    ensures |ss| == n
  {
    if n == 0 then [] else Unpack(w / 4, n - 1) + [w % 4]
  }

  function UnpackAll(ws: seq<nat>): (ss: seq<nat>)
    ensures |ss| == 16 * |ws|
  {
    if ws == [] then [] else UnpackAll(ws[..|ws| - 1]) + Unpack(ws[|ws| - 1], 16)
  }

  lemma {:induction false} Unpacks(ss: seq<nat>)
    requires AreSymbols(ss)
    ensures Unpack(Pack(ss), |ss|) == ss && Pack(ss) < Pow4(|ss|)
  {
    if ss != [] {
      var n := |ss| - 1;
      assert ss == ss[..n] + [ss[n]];
      Unpacks(ss[..n]);
      assert Pack(ss) / 4 == Pack(ss[..n]) && Pack(ss) % 4 == ss[n];
    }
  }

  lemma Pow4Grows(a: nat, b: nat)
    requires a <= b
    ensures Pow4(a) <= Pow4(b)
    decreases b
  {
    if a < b { Pow4Grows(a, b - 1); }
  }

  lemma WordSize()
    ensures Pow4(16) == 0x1_0000_0000
  {
    assert Pow4(4) == 256;
    assert Pow4(8) == 0x1_0000;
    assert Pow4(12) == 0x100_0000;
  }

  function Pad(k: nat): (z: seq<nat>)
    ensures |z| == k && forall i :: 0 <= i < k ==> z[i] == SE0
  {
    if k == 0 then [] else Pad(k - 1) + [SE0]
  }

  lemma {:induction false} PackPads(ss: seq<nat>, k: nat)
    ensures Pack(ss + Pad(k)) == Shl2(Pack(ss), k)
  {
    if k == 0 {
      assert ss + Pad(0) == ss;
    } else {
      PackPads(ss, k - 1);
      assert Pad(k) == Pad(k - 1) + [SE0];
      Regroups(ss, Pad(k - 1), [SE0]);
      Packs(ss + Pad(k - 1), SE0);
      hide Pack, Pad;
    }
  }

  // ---------------------------------------------------------------- the sender

  /** The first `n` bits of a buffer, most significant bit of each byte first. */
  function BitsOf(a: seq<octet>, n: nat): (bs: seq<bit>)
    requires n <= 8 * |a|
    ensures |bs| == n && forall i :: 0 <= i < n ==> bs[i] == GetBit(a, i)
  {
    if n == 0 then [] else BitsOf(a, n - 1) + [GetBit(a, n - 1)]
  }

  /** `(bit * succ_ones) | bit`, which is 0 or an odd number, and 1 if it starts as 0 or 1. */
  function NextRun(b: bit, run: nat): nat {
    var x := b * run;
    if b == 0 || x % 2 == 1 then x else x + 1
  }

  /** What a 32-bit word keeps of a number. */
  function Word32(x: nat): nat { x % 0x1_0000_0000 }

  lemma SmallWord(x: nat)
    requires x < 0x1_0000_0000
    ensures Word32(x) == x
  {
  }

  /** `(data << 2) | ((1 - bit) << 1) | bit` on a 32-bit word. */
  function ShiftIn(data: nat, level: bit): nat { Word32(data * 4 + Symbol(level)) }

  /** `data << 2 * n` */
  function ShiftUp(data: nat, n: nat): nat { Word32(Shl2(data, n)) }

  const BIT_STUFF_LIMIT := 6
  const MAX_WORDS := 100
  const MAX_BYTES := 198

  lemma Packs(ss: seq<nat>, s: nat)
    ensures Pack(ss + [s]) == 4 * Pack(ss) + s
  {
    assert (ss + [s])[..|ss|] == ss;
  }

  lemma PacksFour(ss: seq<nat>, a: nat, b: nat, c: nat, d: nat)
    ensures Pack(ss + [a, b, c, d]) == 256 * Pack(ss) + 64 * a + 16 * b + 4 * c + d
  {
    Packs(ss, a);
    Packs(ss + [a], b);
    Packs(ss + [a] + [b], c);
    Packs(ss + [a] + [b] + [c], d);
    assert ss + [a, b, c, d] == ss + [a] + [b] + [c] + [d];
  }

  lemma SyncPacks()
    ensures Pack(Sync()) == USB_SYNC && AreSymbols(Sync())
  {
    PacksFour([], K, J, K, J);
    PacksFour([] + [K, J, K, J], K, J, K, K);
    assert Sync() == [] + [K, J, K, J] + [K, J, K, K];
    assert Pack([]) == 0;
    hide Pack;
  }

  lemma StepLevels(a: seq<octet>, i: nat)
    requires i < 8 * |a|
    ensures Levels(BitsOf(a, i + 1)) ==
      Levels(BitsOf(a, i)) + [Nrzi(GetBit(a, i), Last(Levels(BitsOf(a, i))))]
    ensures Symbols(Levels(BitsOf(a, i + 1))) ==
      Symbols(Levels(BitsOf(a, i))) + [Symbol(Last(Levels(BitsOf(a, i + 1))))]
  {
    assert BitsOf(a, i + 1)[..i] == BitsOf(a, i);
  }

  lemma FitsWord(cur: seq<nat>)
    requires AreSymbols(cur) && |cur| <= 16
    ensures Pack(cur) < 0x1_0000_0000
  {
    Unpacks(cur);
    Pow4Grows(|cur|, 16);
    WordSize();
  }

  lemma Appends(cur: seq<nat>, s: nat)
    requires AreSymbols(cur) && s < 4 && |cur| < 16
    ensures Pack(cur + [s]) == Word32(Pack(cur) * 4 + s)
    ensures AreSymbols(cur + [s])
  {
    hide Pack, Word32;
    Packs(cur, s);
    FitsWord(cur + [s]);
    SmallWord(Pack(cur + [s]));
  }

  lemma PushWord(ws: seq<nat>, cur: seq<nat>)
    requires AreSymbols(cur) && |cur| == 16
    ensures UnpackAll(ws + [Pack(cur)]) == UnpackAll(ws) + cur
    ensures Pack(cur) < 0x1_0000_0000
  {
    assert (ws + [Pack(cur)])[..|ws|] == ws;
    Unpacks(cur);
    WordSize();
  }

  lemma ShiftsUp(cur: seq<nat>, w: nat)
    requires |cur| < 16 && w == Pack(cur + Pad(16 - |cur|)) < 0x1_0000_0000
    ensures ShiftUp(Pack(cur), 16 - |cur|) == w
  {
    hide Pack, Shl2, Pad, Word32;
    PackPads(cur, 16 - |cur|);
    SmallWord(w);
  }

  lemma PadsWord(ws: seq<nat>, cur: seq<nat>)
    requires AreSymbols(cur) && |cur| < 16
    ensures var w := ShiftUp(Pack(cur), 16 - |cur|);
      w < 0x1_0000_0000 && UnpackAll(ws + [w]) == UnpackAll(ws) + (cur + Pad(16 - |cur|))
  {
    hide Pack, Unpack, UnpackAll, ShiftUp;
    var full := cur + Pad(16 - |cur|);
    PushWord(ws, full);
    ShiftsUp(cur, Pack(full));
  }

  /** After `i` bits: the full words and the symbols not yet in one are the sync pattern and
      the levels of those bits. */
  ghost predicate Sending(txbuf: seq<octet>, i: nat, ws: seq<nat>, cur: seq<nat>) {
    && i <= 8 * |txbuf| && AreSymbols(cur)
    && 16 * |ws| + |cur| == 8 + i
    && UnpackAll(ws) + cur == Sync() + Symbols(Levels(BitsOf(txbuf, i)))
    && forall w | w in ws :: w < 0x1_0000_0000
  }

  function Level(txbuf: seq<octet>, i: nat): bit
    requires i <= 8 * |txbuf|
  {
    Last(Levels(BitsOf(txbuf, i)))
  }

  lemma Starts(txbuf: seq<octet>)
    ensures Sending(txbuf, 0, [], Sync()) && Level(txbuf, 0) == 0 && Pack(Sync()) == USB_SYNC
  {
    SyncPacks();
  }

  lemma SendsBit(txbuf: seq<octet>, i: nat, ws: seq<nat>, cur: seq<nat>)
    requires Sending(txbuf, i, ws, cur) && i < 8 * |txbuf| && |cur| < 16
    ensures Level(txbuf, i + 1) == Nrzi(GetBit(txbuf, i), Level(txbuf, i))
    ensures var s := Symbol(Level(txbuf, i + 1));
      Sending(txbuf, i + 1, ws, cur + [s]) && Pack(cur + [s]) == ShiftIn(Pack(cur), Level(txbuf, i + 1))
  {
    hide Sync, Pack, Unpack, UnpackAll, Levels, BitsOf, Symbols, GetBit, AreSymbols, Symbol, Nrzi, Pad, OctetBit;
    StepLevels(txbuf, i);
    var s := Symbol(Level(txbuf, i + 1));
    Appends(cur, s);
    var before := Symbols(Levels(BitsOf(txbuf, i)));
    Regroups(UnpackAll(ws), cur, [s]);
    Regroups(Sync(), before, [s]);
  }

  lemma FillsWord(txbuf: seq<octet>, i: nat, ws: seq<nat>, cur: seq<nat>)
    requires Sending(txbuf, i, ws, cur) && |cur| == 16
    ensures Sending(txbuf, i, ws + [Pack(cur)], []) && Pack([]) == 0
  {
    PushWord(ws, cur);
    assert AreSymbols([]) && Pack([]) == 0;
    hide Sync, Pack, UnpackAll, Levels, BitsOf, Symbols, GetBit;
    assert UnpackAll(ws) + cur + [] == UnpackAll(ws) + cur;
  }

  lemma Ends(txbuf: seq<octet>, ws: seq<nat>, cur: seq<nat>)
    requires Sending(txbuf, 8 * |txbuf|, ws, cur) && |cur| < 16
    ensures IsPacket(txbuf, ws + [ShiftUp(Pack(cur), 16 - |cur|)])
  {
    hide Sync, Pack, Unpack, UnpackAll, Levels, BitsOf, Symbols, GetBit, AreSymbols, ShiftUp, Pad, OctetBit;
    PadsWord(ws, cur);
    var pad := Pad(16 - |cur|);
    Regroups(UnpackAll(ws), cur, pad);
    assert (8 + 8 * |txbuf|) / 16 == |ws|;
  }

  /** The words of a packet: unpacked most significant symbol first they are the sync pattern,
      the levels of the payload and SE0 up to the end of the last word. */
  ghost predicate IsPacket(txbuf: seq<octet>, words: seq<nat>) {
    && |words| == (8 + 8 * |txbuf|) / 16 + 1
    && (forall w | w in words :: w < 0x1_0000_0000)
    && UnpackAll(words) ==
       Sync() + Symbols(Levels(BitsOf(txbuf, 8 * |txbuf|))) + Pad(16 * |words| - 8 - 8 * |txbuf|)
  }

  /** The loop: the words it has stored after `i` bits, and the symbols not yet in one. */
  function Loop(txbuf: seq<octet>, i: nat): (r: (seq<nat>, seq<nat>))
    requires i <= 8 * |txbuf|
    ensures |r.1| < 16
  {
    if i == 0 then ([], Sync())
    else
      var (ws, cur) := Loop(txbuf, i - 1);
      var next := cur + [Symbol(Level(txbuf, i))];
      if |next| == 16 then (ws + [Pack(next)], []) else (ws, next)
  }

  /** All the words of a packet: the loop's, and the last one shifted up. */
  function AllWords(txbuf: seq<octet>): seq<nat> {
    var (ws, cur) := Loop(txbuf, 8 * |txbuf|);
    ws + [ShiftUp(Pack(cur), 16 - |cur|)]
  }

  lemma {:induction false} LoopSends(txbuf: seq<octet>, i: nat)
    requires i <= 8 * |txbuf|
    ensures Sending(txbuf, i, Loop(txbuf, i).0, Loop(txbuf, i).1)
  {
    hide Sending, Level, Pack, GetBit, Sync, Symbol, ShiftIn, Nrzi;
    if i == 0 {
      Starts(txbuf);
    } else {
      LoopSends(txbuf, i - 1);
      var (ws, cur) := Loop(txbuf, i - 1);
      SendsBit(txbuf, i - 1, ws, cur);
      var next := cur + [Symbol(Level(txbuf, i))];
      if |next| == 16 { FillsWord(txbuf, i, ws, next); }
    }
  }

  lemma AllWordsArePacket(txbuf: seq<octet>)
    ensures IsPacket(txbuf, AllWords(txbuf))
  {
    hide Sending, Loop, ShiftUp, Pack, IsPacket;
    LoopSends(txbuf, 8 * |txbuf|);
    Ends(txbuf, Loop(txbuf, 8 * |txbuf|).0, Loop(txbuf, 8 * |txbuf|).1);
  }

  /** Words once stored stay: those of fewer bits come first. */
  lemma LoopPrefix(txbuf: seq<octet>, i: nat)
    requires i <= 8 * |txbuf|
    ensures Loop(txbuf, i).0 <= AllWords(txbuf)
  {
    hide Loop, ShiftUp, Pack;
    LoopToEnd(txbuf, i, 8 * |txbuf|);
  }

  lemma {:induction false} LoopToEnd(txbuf: seq<octet>, i: nat, j: nat)
    requires i <= j <= 8 * |txbuf|
    ensures Loop(txbuf, i).0 <= Loop(txbuf, j).0
    decreases j
  {
    hide Level, Pack, Symbol, Sync;
    if i < j {
      LoopToEnd(txbuf, i, j - 1);
    }
  }

  /** The packet has a word number 100, for which the code's array has no room, exactly when it
      has more than 198 bytes. */
  lemma StoresWord100Iff(txbuf: seq<octet>)
    ensures |AllWords(txbuf)| > 100 <==> |txbuf| > 198
  {
    AllWordsArePacket(txbuf);
    hide AllWords, UnpackAll, Sync, Symbols, Levels, BitsOf, Pad;
  }

  /** Where the code would store beyond its array the method stops and says so. */
  method SendWords(txbuf: seq<octet>) returns (words: seq<nat>, overrun: bool)
    ensures overrun <==> |txbuf| > 198
    ensures overrun <==> |AllWords(txbuf)| > 100
    ensures words == if overrun then AllWords(txbuf)[..100] else AllWords(txbuf)
    ensures !overrun ==> IsPacket(txbuf, words)
  {
    hide Sync, Sending, Level, Pack, GetBit, IsPacket, Nrzi, Symbol, ShiftIn, ShiftUp;
    StoresWord100Iff(txbuf);
    AllWordsArePacket(txbuf);
    var dataArray := new nat[MAX_WORDS];
    var dataLen := 0;
    var data: nat, count := USB_SYNC, 8;
    var succOnes: int := 0;
    var prev: int := 0;
    var len := |txbuf|;
    overrun := false;
    ghost var cur, ws: seq<nat> := Sync(), [];
    Starts(txbuf);
    var i: int := 0;
    while i < len * 8
      invariant 0 <= i <= len * 8 && 0 <= succOnes <= 1 && !overrun
      invariant 0 <= count < 16 && count == |cur| && data == Pack(cur) && dataLen <= MAX_WORDS
      invariant prev == Level(txbuf, i)
      invariant ws == dataArray[..dataLen] && (ws, cur) == Loop(txbuf, i)
      decreases len * 8 - i, succOnes
    {
      var b: int;
      if succOnes == BIT_STUFF_LIMIT {
        i := i - 1;
        b := 0;
        prev := 0;
        succOnes := 0;
      } else {
        b := GetBit(txbuf, i);
        succOnes := NextRun(b, succOnes);
        b := Nrzi(b, prev);
        prev := b;
      }
      LoopSends(txbuf, i);
      SendsBit(txbuf, i, ws, cur);
      LoopPrefix(txbuf, i + 1);
      data := ShiftIn(data, b);
      count := count + 1;
      cur := cur + [Symbol(b)];
      if count == 16 {
        count := 0;
        if dataLen == MAX_WORDS {
          overrun := true;
          words := dataArray[..];
          return;
        }
        FillsWord(txbuf, i + 1, ws, cur);
        dataArray[dataLen] := data;
        dataLen := dataLen + 1;
        ws, cur := ws + [data], [];
        data := 0;
      }
      i := i + 1;
    }
    data := ShiftUp(data, 16 - count);
    if dataLen == MAX_WORDS {
      overrun := true;
      words := dataArray[..];
      return;
    }
    dataArray[dataLen] := data;
    dataLen := dataLen + 1;
    words := dataArray[..dataLen];
    assert words == ws + [data];
  }

  // ---------------------------------------------------------------- the reader

  /** The levels of the lowest symbols of a word, up to the first SE0. */
  function Take(w: nat, n: nat): (ls: seq<bit>)
    ensures |ls| <= n
  {
    if n == 0 || w % 4 == 0 then [] else [w % 2] + Take(w / 4, n - 1)
  }

  /** Symbols that were shifted in last stand highest: SE0 below them is skipped. */
  function Chunk(w: nat, n: nat): seq<bit> {
    if n > 0 && w % 4 == 0 && w != 0 then Chunk(w / 4, n - 1) else Take(w, n)
  }

  /** The levels in the words up to the first word 0. */
  function LevelsRead(words: seq<nat>): seq<bit> {
    if words == [] || words[0] == 0 then [] else Chunk(words[0], 8) + LevelsRead(words[1..])
  }

  /** A word as the receiver's state machine fills it, first symbol lowest. */
  function PackLow(levels: seq<bit>): nat {
    if levels == [] then 0 else Symbol(levels[0]) + 4 * PackLow(levels[1..])
  }

  lemma {:induction false} TakesBack(levels: seq<bit>, n: nat)
    requires |levels| <= n
    ensures Take(PackLow(levels), n) == levels
    ensures levels != [] ==> PackLow(levels) % 4 != 0
  {
    if levels != [] {
      TakesBack(levels[1..], n - 1);
      assert PackLow(levels) % 4 == Symbol(levels[0]) && PackLow(levels) / 4 == PackLow(levels[1..]);
    }
  }

  lemma ChunkSkips(x: nat, n: nat)
    requires x != 0 && n > 0
    ensures Chunk(4 * x, n) == Chunk(x, n - 1)
  {
    assert 4 * x % 4 == 0 && 4 * x / 4 == x;
    hide Take;
  }

  lemma ChunkNow(levels: seq<bit>, n: nat)
    requires 0 < |levels| <= n
    ensures PackLow(levels) != 0 && Chunk(PackLow(levels), n) == levels
  {
    TakesBack(levels, n);
    hide PackLow, Take;
  }

  /** However far up a word its symbols stand, the reader finds them. */
  lemma {:induction false} ChunkBack(levels: seq<bit>, low: nat, n: nat)
    requires 0 < |levels| && low + |levels| <= n
    ensures Shl2(PackLow(levels), low) != 0
    ensures Chunk(Shl2(PackLow(levels), low), n) == levels
    decreases low
  {
    hide PackLow, Chunk;
    if low == 0 {
      ChunkNow(levels, n);
    } else {
      ChunkBack(levels, low - 1, n - 1);
      ChunkSkips(Shl2(PackLow(levels), low - 1), n);
    }
  }

  /** A piece of the line in one word, above `low` symbols of SE0. */
  datatype Piece = Piece(levels: seq<bit>, low: nat) {
    predicate Fits() { 0 < |levels| && low + |levels| <= 8 }

    function Word(): nat { Shl2(PackLow(levels), low) }
  }

  /** The words of some pieces and the empty word after them. */
  function Words(pieces: seq<Piece>): seq<nat> {
    if pieces == [] then [0] else [pieces[0].Word()] + Words(pieces[1..])
  }

  function Join(pieces: seq<Piece>): seq<bit> {
    if pieces == [] then [] else pieces[0].levels + Join(pieces[1..])
  }

  lemma {:induction false} ReadsPieces(pieces: seq<Piece>)
    requires forall p | p in pieces :: p.Fits()
    ensures LevelsRead(Words(pieces)) == Join(pieces)
    ensures 0 in Words(pieces)
  {
    if pieces != [] {
      assert pieces[0] in pieces;
      ChunkBack(pieces[0].levels, pieces[0].low, 8);
      ReadsPieces(pieces[1..]);
      assert Words(pieces)[1..] == Words(pieces[1..]);
    }
  }

  lemma DecodeStep(levels: seq<bit>, l: bit)
    ensures Decode(levels + [l]) == Decode(levels) + [Nrzi(l, Last(levels))]
  {
    assert (levels + [l])[..|levels|] == levels;
  }

  /** The buffer holds the bits of the levels read so far, and its own old bits after them. */
  predicate Received(now: seq<octet>, before: seq<octet>, done: seq<bit>) {
    && |now| == |before| && |done| <= 8 * |now|
    && (forall i | 0 <= i < |done| :: GetBit(now, i) == Decode(done)[i])
    && (forall i | |done| <= i < 8 * |now| :: GetBit(now, i) == GetBit(before, i))
  }

  lemma SetsNext(now: seq<octet>, before: seq<octet>, done: seq<bit>, l: bit)
    requires Received(now, before, done) && |done| < 8 * |now|
    ensures Received(SetBit(now, |done|, Nrzi(l, Last(done))), before, done + [l])
  {
    DecodeStep(done, l);
    var b := Nrzi(l, Last(done));
    forall i | 0 <= i < 8 * |now|
      ensures GetBit(SetBit(now, |done|, b), i) == if i == |done| then b else GetBit(now, i)
    {
      GetSet(now, |done|, b, i);
    }
  }

  lemma ReceivedAt(now: seq<octet>, before: seq<octet>, done: seq<bit>, i: nat)
    requires Received(now, before, done) && i < |done|
    ensures |done| <= 8 * |now| && GetBit(now, i) == Decode(done)[i]
  {
  }

  lemma WordOfEight()
    ensures Pow4(8) == 0x1_0000
  {
    assert Pow4(4) == 256;
  }

  /** The levels read so far and those still to come are all the levels there are. */
  ghost predicate Reading(now: seq<octet>, before: seq<octet>, done: seq<bit>, rest: seq<bit>, all: seq<bit>) {
    Received(now, before, done) && done + rest == all && |all| <= 8 * |now|
  }

  lemma ReadsWord(now: seq<octet>, before: seq<octet>, done: seq<bit>, words: seq<nat>, all: seq<bit>)
    requires Reading(now, before, done, LevelsRead(words), all)
    requires 0 in words && words[0] < 0x1_0000
    ensures words[0] == 0 ==> done == all && Reading(now, before, done, [], all)
    ensures words[0] != 0 ==> 0 in words[1..] && words[0] < Pow4(8)
    ensures words[0] != 0 ==> Reading(now, before, done, Chunk(words[0], 8) + LevelsRead(words[1..]), all)
  {
    WordOfEight();
    assert words == [words[0]] + words[1..];
    assert done + [] == done;
  }

  lemma SkipsSE0(w: nat, n: nat)
    requires 0 < w < Pow4(n)
    ensures w % 4 == 0 ==> n > 0 && 0 < w / 4 < Pow4(n - 1) && Chunk(w / 4, n - 1) == Chunk(w, n)
    ensures w % 4 != 0 ==> Chunk(w, n) == Take(w, n)
  {
  }

  lemma ReadsBit(now: seq<octet>, before: seq<octet>, done: seq<bit>, w: nat, n: nat,
                 rest: seq<bit>, all: seq<bit>)
    requires Reading(now, before, done, Take(w, n) + rest, all)
    ensures n == 0 || w % 4 == 0 ==> Reading(now, before, done, rest, all)
    ensures n > 0 && w % 4 != 0 ==> |done| < 8 * |now|
    ensures n > 0 && w % 4 != 0 ==>
      Reading(SetBit(now, |done|, Nrzi(w % 2, Last(done))), before, done + [w % 2], Take(w / 4, n - 1) + rest, all)
  {
    if n == 0 || w % 4 == 0 {
      assert Take(w, n) + rest == rest;
    } else {
      var l: bit := w % 2;
      assert Take(w, n) == [l] + Take(w / 4, n - 1);
      hide Take, Received, SetBit;
      assert done + (Take(w, n) + rest) == (done + [l]) + (Take(w / 4, n - 1) + rest);
      SetsNext(now, before, done, l);
    }
  }

  /** The last word of a packet may hold fewer than eight symbols. */
  method AlignWord(word: nat) returns (data: nat, count: nat)
    requires 0 < word < Pow4(8)
    ensures Take(data, count) == Chunk(word, 8)
  {
    data, count := word, 8;
    while data % 4 == 0 && data != 0
      invariant 0 < data < Pow4(count) && Chunk(data, count) == Chunk(word, 8)
    {
      SkipsSE0(data, count);
      data := data / 4;
      count := count - 1;
    }
    SkipsSE0(data, count);
  }

  /** `set_bit` */
  method SetsBit(a: array<octet>, i: nat, b: bit)
    requires i / 8 < a.Length
    modifies a
    ensures a[..] == SetBit(old(a[..]), i, b)
  {
    a[i / 8] := OctetWith(a[i / 8], Shift(i), b);
  }

  /** Reading: the buffer's first `len` bits are the decoded levels, the other bits stay. */
  method ReadPacket(words: seq<nat>, rxbuf: array<octet>) returns (len: nat)
    requires 0 in words && forall w | w in words :: w < 0x1_0000
    requires |LevelsRead(words)| <= 8 * rxbuf.Length
    modifies rxbuf
    ensures len == |LevelsRead(words)|
    ensures Received(rxbuf[..], old(rxbuf[..]), LevelsRead(words))
  {
    ghost var before, now := rxbuf[..], rxbuf[..];
    ghost var done: seq<bit>, all := [], LevelsRead(words);
    assert Reading(now, before, done, all, all) && Last([]) == 0 && words[0..] == words;
    hide *;
    len := 0;
    var last: bit := 0;
    var r := 0;
    while true
      invariant r <= |words| && 0 in words[r..]
      invariant now == rxbuf[..] && Reading(now, before, done, LevelsRead(words[r..]), all)
      invariant len == |done| && last == Last(done)
      decreases |words| - r
    {
      assert words[r] in words;
      ReadsWord(now, before, done, words[r..], all);
      var count: nat;
      var data: nat := words[r];
      assert words[r..][1..] == words[r + 1..];
      r := r + 1;
      if data == 0 { break; }
      ghost var rest := LevelsRead(words[r..]);
      data, count := AlignWord(data);
      while count > 0
        invariant now == rxbuf[..] && Reading(now, before, done, Take(data, count) + rest, all)
        invariant len == |done| && last == Last(done)
      {
        if data % 4 == 0 { break; }
        ReadsBit(now, before, done, data, count, rest, all);
        SetsBit(rxbuf, len, Nrzi(data % 2, last));
        now := SetBit(now, len, Nrzi(data % 2, last));
        last := data % 2;
        done := done + [last];
        len := len + 1;
        data := data / 4;
        count := count - 1;
      }
      ReadsBit(now, before, done, data, count, rest, all);
    }
  }

  /** Buffers with the same bits are the same. */
  lemma SameBits(a: seq<octet>, b: seq<octet>)
    requires |a| == |b| && forall i | 0 <= i < 8 * |a| :: GetBit(a, i) == GetBit(b, i)
    ensures a == b
  {
    hide OctetBit;
    forall k | 0 <= k < |a| ensures a[k] == b[k] {
      forall i | 0 <= i < 8 ensures OctetBit(a[k], Shift(i)) == OctetBit(b[k], Shift(i)) {
        assert GetBit(a, 8 * k + i) == GetBit(b, 8 * k + i);
        assert (8 * k + i) / 8 == k && (8 * k + i) % 8 == i;
        assert Shift(8 * k + i) == Shift(i);
      }
      assert Shift(0) == 7 && Shift(1) == 6 && Shift(2) == 5 && Shift(3) == 4;
      assert Shift(4) == 3 && Shift(5) == 2 && Shift(6) == 1 && Shift(7) == 0;
      SameOctet(a[k], b[k]);
    }
  }

  lemma SameBuffers(payload: seq<octet>, before: seq<octet>, now: seq<octet>, levels: seq<bit>)
    requires |before| == |payload| && Received(now, before, levels)
    requires Decode(levels) == BitsOf(payload, 8 * |payload|)
    ensures now == payload
  {
    assert |now| == |payload|;
    hide *;
    forall i | 0 <= i < 8 * |payload| ensures GetBit(now, i) == GetBit(payload, i) {
      ReceivedAt(now, before, levels, i);
    }
    SameBits(now, payload);
  }

  /** Whatever bytes' levels are on the line, and however they are cut into words, the reader's
      buffer ends up with the bytes. */
  lemma SentIsRead(payload: seq<octet>, pieces: seq<Piece>, before: seq<octet>, now: seq<octet>)
    requires forall p | p in pieces :: p.Fits()
    requires Join(pieces) == Levels(BitsOf(payload, 8 * |payload|)) && |before| == |payload|
    requires Received(now, before, LevelsRead(Words(pieces)))
    ensures now == payload
  {
    hide *;
    ReadsPieces(pieces);
    DecodesLevels(BitsOf(payload, 8 * |payload|));
    SameBuffers(payload, before, now, LevelsRead(Words(pieces)));
  }

  // ---------------------------------------------------------------- the sender's words, read

  /** What the sync pattern decodes to when the line was at level 0 before it. */
  const SYNC_BYTE: octet := 0x81

  function SyncBits(): seq<bit> { [1, 0, 0, 0, 0, 0, 0, 1] }

  function SyncLevels(): seq<bit> { [0, 1, 0, 1, 0, 1, 0, 0] }

  lemma LevelsOne(bits: seq<bit>, b: bit)
    ensures Levels(bits + [b]) == Levels(bits) + [Nrzi(b, Last(Levels(bits)))]
  {
    assert (bits + [b])[..|bits|] == bits;
  }

  lemma FirstHalf()
    ensures Levels([1, 0, 0, 0]) == [0, 1, 0, 1]
  {
    assert Levels([]) == [];
    hide Levels;
    LevelsOne([], 1);
    LevelsOne([1], 0);
    LevelsOne([1, 0], 0);
    LevelsOne([1, 0, 0], 0);
    assert [] + [1] == [1] && [1] + [0] == [1, 0] && [1, 0] + [0] == [1, 0, 0] && [1, 0, 0] + [0] == [1, 0, 0, 0];
    assert Levels([1]) == [0];
    assert Levels([1, 0]) == [0, 1];
    assert Levels([1, 0, 0]) == [0, 1, 0];
  }

  lemma SixOf()
    ensures Levels([1, 0, 0, 0, 0, 0]) == [0, 1, 0, 1, 0, 1]
  {
    FirstHalf();
    hide Levels;
    LevelsOne([1, 0, 0, 0], 0);
    LevelsOne([1, 0, 0, 0, 0], 0);
    assert [1, 0, 0, 0] + [0] == [1, 0, 0, 0, 0] && [1, 0, 0, 0, 0] + [0] == [1, 0, 0, 0, 0, 0];
    assert Levels([1, 0, 0, 0, 0]) == [0, 1, 0, 1, 0];
  }

  lemma SyncIs()
    ensures Levels(SyncBits()) == SyncLevels()
  {
    SixOf();
    hide Levels;
    LevelsOne([1, 0, 0, 0, 0, 0], 0);
    LevelsOne([1, 0, 0, 0, 0, 0, 0], 1);
    assert [1, 0, 0, 0, 0, 0] + [0] == [1, 0, 0, 0, 0, 0, 0];
    assert [1, 0, 0, 0, 0, 0, 0] + [1] == SyncBits();
    assert Levels([1, 0, 0, 0, 0, 0, 0]) == [0, 1, 0, 1, 0, 1, 0];
  }

  lemma SyncSymbols()
    ensures Symbols(SyncLevels()) == Sync()
  {
    hide Symbols;
  }

  lemma LastOf(a: seq<bit>, b: seq<bit>)
    requires Last(a) == 0
    ensures Last(a + b) == Last(b)
  {
    if b == [] {
      assert a + b == a;
    }
  }

  /** A line that ends at level 0 goes on as one that starts there. */
  lemma {:induction false} LevelsAfter(a: seq<bit>, b: seq<bit>)
    requires Last(Levels(a)) == 0
    ensures Levels(a + b) == Levels(a) + Levels(b)
    decreases |b|
  {
    if b == [] {
      assert a + b == a && Levels(b) == [];
    } else {
      var front, x := b[..|b| - 1], b[|b| - 1];
      hide Levels, Nrzi;
      LevelsAfter(a, front);
      LevelsOne(a + front, x);
      LevelsOne(front, x);
      assert b == front + [x];
      Regroups(a, front, [x]);
      Regroups(Levels(a), Levels(front), [Nrzi(x, Last(Levels(front)))]);
      LastOf(Levels(a), Levels(front));
    }
  }

  lemma SyncFirst(payload: seq<octet>)
    ensures var all := [SYNC_BYTE] + payload;
      BitsOf(all, 8 * |all|) == SyncBits() + BitsOf(payload, 8 * |payload|)
  {
    var all := [SYNC_BYTE] + payload;
    SyncByteBits();
    hide OctetBit;
    forall i | 0 <= i < 8 * |all|
      ensures GetBit(all, i) == (SyncBits() + BitsOf(payload, 8 * |payload|))[i]
    {
      if i < 8 {
        assert i / 8 == 0;
      } else {
        assert (i - 8) / 8 == i / 8 - 1 && (i - 8) % 8 == i % 8;
        assert GetBit(all, i) == GetBit(payload, i - 8);
      }
    }
    hide BitsOf, GetBit;
  }

  lemma SyncByteBits()
    ensures forall i | 0 <= i < 8 :: OctetBit(SYNC_BYTE, Shift(i)) == SyncBits()[i]
  {
    assert OctetBit(SYNC_BYTE, 7) == 1 && OctetBit(SYNC_BYTE, 6) == 0 && OctetBit(SYNC_BYTE, 5) == 0;
    assert OctetBit(SYNC_BYTE, 4) == 0 && OctetBit(SYNC_BYTE, 3) == 0 && OctetBit(SYNC_BYTE, 2) == 0;
    assert OctetBit(SYNC_BYTE, 1) == 0 && OctetBit(SYNC_BYTE, 0) == 1;
    hide OctetBit;
  }

  lemma SymbolsSplit(a: seq<bit>, b: seq<bit>)
    ensures Symbols(a + b) == Symbols(a) + Symbols(b)
    ensures |a| == |b| && Symbols(a) == Symbols(b) ==> a == b
  {
    hide Symbols;
    if |a| == |b| && Symbols(a) == Symbols(b) {
      forall i | 0 <= i < |a| ensures a[i] == b[i] {
        assert Symbols(a)[i] == Symbols(b)[i];
      }
    }
  }

  /** From the sender's words to the reader's bytes: what stands on the line before SE0, cut in
      any way into the reader's words, is the payload behind the byte of the sync pattern. */
  lemma WireIsRead(payload: seq<octet>, words: seq<nat>, pieces: seq<Piece>, before: seq<octet>, now: seq<octet>)
    requires IsPacket(payload, words) && forall p | p in pieces :: p.Fits()
    requires Symbols(Join(pieces)) == UnpackAll(words)[..8 + 8 * |payload|]
    requires |before| == |payload| + 1 && Received(now, before, LevelsRead(Words(pieces)))
    ensures now == [SYNC_BYTE] + payload
  {
    LineHead(payload, words);
    hide *;
    LineLevels(payload, Join(pieces));
    SentIsRead([SYNC_BYTE] + payload, pieces, before, now);
  }

  lemma LineLevels(payload: seq<octet>, line: seq<bit>)
    requires Symbols(line) == Sync() + Symbols(Levels(BitsOf(payload, 8 * |payload|)))
    ensures var all := [SYNC_BYTE] + payload; line == Levels(BitsOf(all, 8 * |all|))
  {
    hide *;
    var bits := BitsOf(payload, 8 * |payload|);
    SyncIs();
    SyncSymbols();
    SyncFirst(payload);
    LastSync();
    LevelsAfter(SyncBits(), bits);
    SymbolsSplit(SyncLevels(), Levels(bits));
    SymbolsSplit(line, SyncLevels() + Levels(bits));
  }

  lemma LastSync()
    ensures Last(SyncLevels()) == 0
  {
  }

  lemma LineHead(payload: seq<octet>, words: seq<nat>)
    requires IsPacket(payload, words)
    ensures |UnpackAll(words)| >= 8 + 8 * |payload|
    ensures UnpackAll(words)[..8 + 8 * |payload|] == Sync() + Symbols(Levels(BitsOf(payload, 8 * |payload|)))
  {
    hide Sync, Symbols, Levels, BitsOf, UnpackAll, Pad;
  }

  // ---------------------------------------------------------------- the standard's bit stuffing

  /* Section 7.1.9 of the USB 2.0 specification, which the code intends but does not do: its
     counter saturates at 1, so its stuffing branch is never taken (`SendWords` keeps
     succOnes <= 1).  The functions below are the standard's rule, not the code's. */

  /** A zero after every six ones in a row; `run` ones came just before. */
  function Stuff(bits: seq<bit>, run: nat): (r: seq<bit>)
    requires run < 6
    ensures |r| >= |bits|
  {
    if bits == [] then []
    else if bits[0] == 0 then [0] + Stuff(bits[1..], 0)
    else if run == 5 then [1, 0] + Stuff(bits[1..], 0)
    else [1] + Stuff(bits[1..], run + 1)
  }

  function Ones(n: nat): (s: seq<bit>)
    ensures |s| == n && forall i | 0 <= i < n :: s[i] == 1
  {
    if n == 0 then [] else Ones(n - 1) + [1]
  }

  predicate SixAt(s: seq<bit>, i: nat) {
    i + 6 <= |s| && s[i] == s[i + 1] == s[i + 2] == s[i + 3] == s[i + 4] == s[i + 5] == 1
  }

  predicate SixOnes(s: seq<bit>) { exists i: nat | i < |s| :: SixAt(s, i) }

  lemma SixAfterZero(run: nat, bits: seq<bit>)
    requires run < 6 && bits != [] && bits[0] == 0
    ensures SixOnes(Ones(run) + bits) <==> SixOnes(bits[1..])
  {
    var s := Ones(run) + bits;
    assert s[run] == 0;
    if SixOnes(s) {
      var i: nat :| i < |s| && SixAt(s, i);
      assert i > run;
      assert SixAt(bits[1..], i - run - 1);
    }
    if SixOnes(bits[1..]) {
      var i: nat :| i < |bits[1..]| && SixAt(bits[1..], i);
      assert SixAt(s, i + run + 1);
    }
  }

  lemma NoSixYet(run: nat)
    requires run < 6
    ensures !SixOnes(Ones(run) + [])
  {
  }

  lemma SixNow(bits: seq<bit>)
    requires bits != [] && bits[0] == 1
    ensures SixOnes(Ones(5) + bits)
  {
    assert SixAt(Ones(5) + bits, 0);
  }

  lemma {:induction false} StuffsIff(bits: seq<bit>, run: nat)
    requires run < 6
    ensures Stuff(bits, run) == bits <==> !SixOnes(Ones(run) + bits)
  {
    hide SixOnes, Ones;
    if bits == [] {
      NoSixYet(run);
    } else if bits[0] == 0 {
      StuffsIff(bits[1..], 0);
      SixAfterZero(run, bits);
      assert Ones(0) + bits[1..] == bits[1..];
      assert bits == [0] + bits[1..];
      assert Stuff(bits, run)[1..] == Stuff(bits[1..], 0);
    } else if run == 5 {
      SixNow(bits);
      assert |Stuff(bits, run)| > |bits|;
    } else {
      StuffsIff(bits[1..], run + 1);
      assert Ones(run) + bits == Ones(run + 1) + bits[1..];
      assert bits == [1] + bits[1..];
      assert Stuff(bits, run)[1..] == Stuff(bits[1..], run + 1);
    }
  }

  /** The line the code drives is the standard's exactly when no six ones follow each other,
      counting the one that ends the sync pattern. */
  lemma LineIsStandardIff(payload: seq<octet>)
    ensures var bits := BitsOf(payload, 8 * |payload|);
      Levels(bits) == Levels(Stuff(bits, 1)) <==> !SixOnes([1] + bits)
  {
    var bits := BitsOf(payload, 8 * |payload|);
    DecodesLevels(bits);
    DecodesLevels(Stuff(bits, 1));
    StuffsIff(bits, 1);
    assert Ones(1) == [1];
  }
}
