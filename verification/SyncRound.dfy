/** One undisturbed round of `sync` on each board, down to the bytes on the wire (messages.c). */
module SyncRound {
  import opened Common
  import opened SpiFraming

  predicate AllFit(ms: seq<Message>) {
    forall m | m in ms :: Fits(m)
  }

  /** The bytes of frames sent back to back. */
  function Frames(ms: seq<Message>): seq<byte>
    requires AllFit(ms)
  {
    if ms == [] then [] else Frame(MARKER, ms[0]) + Frames(ms[1..])
  }

  lemma FramesSnoc(ms: seq<Message>, m: Message)
    requires AllFit(ms + [m])
    ensures AllFit(ms) && Fits(m) && Frames(ms + [m]) == Frames(ms) + Frame(MARKER, m)
  {
    assert forall x | x in ms :: x in ms + [m];
    assert m in ms + [m];
    if ms == [] {
      assert ms + [m] == [m];
    } else {
      assert (ms + [m])[1..] == ms[1..] + [m];
      FramesSnoc(ms[1..], m);
    }
  }

  /** The messages up to the first query, and the bytes after it. */
  function UntilQuery(s: seq<byte>): Option<(seq<Message>, seq<byte>)>
    decreases |s|
  {
    match Parse(s)
    case None => None
    case Some((m, rest)) =>
      if IsQuery(m) then Some(([], rest))
      else
        match UntilQuery(rest)
        case None => None
        case Some((ms, tail)) => Some(([m] + ms, tail))
  }

  /** A one-byte count, then that many messages. */
  function Counted(s: seq<byte>): Option<(seq<Message>, seq<byte>)> {
    match Parse(s)
    case None => None
    case Some((c, rest)) => if |c.payload| == 1 then ParseMany(rest, c.payload[0]) else None
  }

  lemma ParseManySplit(s: seq<byte>, n: nat)
    requires n > 0 && ParseMany(s, n).Some?
    ensures Parse(s).Some? && ParseMany(Parse(s).value.1, n - 1).Some?
    ensures ParseMany(s, n).value.0 == [Parse(s).value.0] + ParseMany(Parse(s).value.1, n - 1).value.0
    ensures ParseMany(s, n).value.1 == ParseMany(Parse(s).value.1, n - 1).value.1
  {
  }

  class Board {
    var tx: seq<Message>
    var rx: seq<Message>
    const port: SpiPort

    constructor (incoming: seq<byte>)
      ensures tx == [] && rx == [] && fresh(port) && port.dummy == MARKER && port.written == []
      ensures port.incoming == incoming
    {
      tx, rx := [], [];
      port := new SpiPort(incoming);
    }

    /** Removes the first `n` messages of tx and sends each. */
    method StreamTx(n: nat)
      requires AllFit(tx) && port.dummy == MARKER && n <= |tx|
      modifies this`tx, port`written, port`flag
      ensures tx == old(tx)[n..]
      ensures AllFit(old(tx)[..n]) && port.written == old(port.written) + Frames(old(tx)[..n])
    {
      hide Frame;
      ghost var sent: seq<Message> := [];
      var left := n;
      while left > 0
        invariant 0 <= left <= n && |sent| == n - left && old(tx) == sent + tx
        invariant AllFit(sent) && port.written == old(port.written) + Frames(sent)
        decreases left
      {
        var msg := tx[0];
        assert msg in old(tx);
        tx := tx[1..];
        port.SendBlocking(msg.payload, msg.flag);
        FramesSnoc(sent, msg);
        sent := sent + [msg];
        left := left - 1;
      }
      assert sent == old(tx)[..n];
    }

    /** Receives `n` messages and adds each to rx. */
    method CollectRx(n: nat)
      requires ParseMany(port.incoming, n).Some? && port.dummy == MARKER
      modifies this`rx, port`incoming, port`flag, port`dummy
      ensures old(rx) <= rx && port.dummy == MARKER
      ensures ParseMany(old(port.incoming), n) == Some((rx[|old(rx)|..], port.incoming))
    {
      hide Parse;
      ghost var got: seq<Message> := [];
      var left := n;
      assert [] + ParseMany(port.incoming, n).value.0 == ParseMany(port.incoming, n).value.0;
      while left > 0
        invariant 0 <= left <= n && port.dummy == MARKER && rx == old(rx) + got
        invariant ParseMany(port.incoming, left).Some?
        invariant ParseMany(old(port.incoming), n) ==
          Some((got + ParseMany(port.incoming, left).value.0, ParseMany(port.incoming, left).value.1))
        decreases left
      {
        ParseManySplit(port.incoming, left);
        ghost var more := ParseMany(port.incoming, left).value.0;
        var data := port.ReceiveBlocking();
        var msg := Message(port.flag, data);
        rx := rx + [msg];
        assert got + more == got + [msg] + more[1..];
        got := got + [msg];
        left := left - 1;
      }
      assert got + [] == got;
    }

    /** The master's round.  Its assertion on the count is part of `Counted(..).Some?`. */
    method SyncMaster(attached: bool)
      requires AllFit(tx) && port.dummy == MARKER
      requires attached ==> Counted(port.incoming).Some?
      modifies this, port
      ensures port.dummy == MARKER
      ensures !attached ==> unchanged(this) && unchanged(port)
      ensures attached ==> tx == [] && port.written == old(port.written) + Frames(old(tx)) + Frame(MARKER, QUERY)
      ensures old(rx) <= rx
      ensures attached ==> Counted(old(port.incoming)) == Some((rx[|old(rx)|..], port.incoming))
    {
      if !attached { return; }
      hide Frame, Frames, ParseMany;
      StreamTx(|tx|);
      assert old(tx)[..|old(tx)|] == old(tx);
      port.SendBlocking([], SLAVE_DATA_QUERY);
      var bugger := port.ReceiveBlocking();
      CollectRx(bugger[0]);
    }

    /** Receives messages into rx until a query comes. */
    method Listen()
      requires UntilQuery(port.incoming).Some? && port.dummy == MARKER
      modifies this`rx, port`incoming, port`flag, port`dummy
      ensures old(rx) <= rx && port.dummy == MARKER
      ensures UntilQuery(old(port.incoming)) == Some((rx[|old(rx)|..], port.incoming))
    {
      ghost var got: seq<Message> := [];
      var asked := false;
      assert [] + UntilQuery(port.incoming).value.0 == UntilQuery(port.incoming).value.0;
      while !asked
        invariant port.dummy == MARKER && rx == old(rx) + got
        invariant !asked ==> UntilQuery(port.incoming).Some?
        invariant !asked ==>
          (UntilQuery(old(port.incoming)) ==
           Some((got + UntilQuery(port.incoming).value.0, UntilQuery(port.incoming).value.1)))
        invariant asked ==> UntilQuery(old(port.incoming)) == Some((got, port.incoming))
        decreases !asked, |port.incoming|
      {
        ghost var more := UntilQuery(port.incoming).value.0;
        var data := port.ReceiveBlocking();
        var msg := Message(port.flag, data);
        if IsQuery(msg) {
          asked := true;
          assert got + [] == got;
        } else {
          rx := rx + [msg];
          assert got + more == got + [msg] + more[1..];
          got := got + [msg];
        }
      }
    }

    /** The slave's round.  The count goes out as one byte. */
    method SyncSlave()
      requires AllFit(tx) && port.dummy == MARKER && |tx| <= CAPACITY
      requires UntilQuery(port.incoming).Some?
      modifies this, port
      ensures port.dummy == MARKER && tx == [] && old(rx) <= rx
      ensures UntilQuery(old(port.incoming)) == Some((rx[|old(rx)|..], port.incoming))
      ensures port.written ==
        old(port.written) + Frame(MARKER, Message(0, [|old(tx)|])) + Frames(old(tx))
    {
      hide Frame, Frames, UntilQuery;
      Listen();
      var recCount: byte := |tx| % 256;
      port.SendBlocking([recCount], 0);
      StreamTx(recCount);
      assert old(tx)[..|old(tx)|] == old(tx);
    }
  }

  /** What the master sends in a round is what the slave takes from it, whatever idle bytes
      other than 0xff the wire puts before the frames. */
  lemma {:induction false} SlaveGetsRound(idles: seq<seq<byte>>, ms: seq<Message>, tail: seq<byte>)
    requires |idles| == |ms| + 1 && AllFit(ms)
    requires forall idle | idle in idles :: MARKER !in idle
    requires forall m | m in ms :: !IsQuery(m)
    ensures AllFit(ms + [QUERY]) && UntilQuery(Stream(idles, ms + [QUERY]) + tail) == Some((ms, tail))
  {
    hide UntilQuery, Frame, Parse;
    var all := ms + [QUERY];
    ParseHead(idles, all, tail);
    var s := Stream(idles, all) + tail;
    var rest := Stream(idles[1..], all[1..]) + tail;
    if ms == [] {
      assert all[1..] == [] && rest == tail;
      TakesQuery(s, rest);
    } else {
      hide Stream;
      assert all[1..] == ms[1..] + [QUERY];
      assert all[0] == ms[0] && ms[0] in ms;
      SlaveGetsRound(idles[1..], ms[1..], tail);
      TakesOne(s, ms[0], rest);
      assert [ms[0]] + ms[1..] == ms;
    }
  }

  lemma TakesQuery(s: seq<byte>, rest: seq<byte>)
    requires Parse(s) == Some((QUERY, rest))
    ensures UntilQuery(s) == Some(([], rest))
  {
  }

  lemma TakesOne(s: seq<byte>, m: Message, rest: seq<byte>)
    requires Parse(s) == Some((m, rest)) && !IsQuery(m) && UntilQuery(rest).Some?
    ensures UntilQuery(s) == Some(([m] + UntilQuery(rest).value.0, UntilQuery(rest).value.1))
  {
  }

  /** ... and what the slave replies is what the master takes. */
  lemma MasterGetsRound(idles: seq<seq<byte>>, ms: seq<Message>, tail: seq<byte>)
    requires |idles| == |ms| + 1 && AllFit(ms) && |ms| <= CAPACITY
    requires forall idle | idle in idles :: MARKER !in idle
    ensures AllFit([Message(0, [|ms|])] + ms)
    ensures Counted(Stream(idles, [Message(0, [|ms|])] + ms) + tail) == Some((ms, tail))
  {
    var all := [Message(0, [|ms|])] + ms;
    ParseHead(idles, all, tail);
    assert all[1..] == ms;
    StreamRoundTrip(idles[1..], ms, tail);
  }
}
