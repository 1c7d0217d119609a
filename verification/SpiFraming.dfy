/** Byte framing of one message on the SPI wire (spi_data.c). */
module SpiFraming {
  import opened Common

  const MARKER: byte := 0xff

  /** The bytes one call of the sender writes while its marker variable holds `mark`. */
  function Frame(mark: byte, m: Message): seq<byte>
    requires Fits(m)
  {
    var n: u16 := |m.payload|;
    [mark, Low(n), High(n), Low(m.flag), High(m.flag)] + m.payload
  }

  /** The header of a frame: the marker, then length and flag, each with its low byte first. */
  lemma HeaderOf(mark: byte, m: Message)
    requires Fits(m)
    ensures var f := Frame(mark, m);
      && |f| == 5 + |m.payload| && f[0] == mark && f[5..] == m.payload
      && f[1] + (f[2] as int) * 256 == |m.payload| && f[3] + (f[4] as int) * 256 == m.flag
  {
  }

  /** The data query on the wire, and the flag bit by which it is known. */
  lemma QueryOf(m: Message)
    ensures Frame(0xff, QUERY) == [0xff, 0, 0, 0x10, 0]
    ensures IsQuery(m) <==> m.flag / 0x10 % 2 == 1
  {
  }

  /** Number of bytes read before, and not including, the first marker. */
  function IdleLength(s: seq<byte>): (n: nat)
    ensures n <= |s|
    ensures MARKER !in s[..n]
    ensures n < |s| ==> s[n] == MARKER
  {
    if s == [] || s[0] == MARKER then 0
    else
      var n := 1 + IdleLength(s[1..]);
      assert s[..n] == [s[0]] + s[1..][..n - 1];
      n
  }

  /** What a receiver takes from a byte stream: a message and the bytes after it.
      `None` means the stream ends before the receiver would return. */
  function Parse(s: seq<byte>): Option<(Message, seq<byte>)> {
    var p := IdleLength(s);
    if |s| < p + 5 then None
    else
      var len := Word(s[p + 1], s[p + 2]);
      if |s| < p + 5 + len then None
      else Some((Message(Word(s[p + 3], s[p + 4]), s[p + 5..p + 5 + len]), s[p + 5 + len..]))
  }

  lemma IdlePrefix(idle: seq<byte>, s: seq<byte>)
    requires MARKER !in idle
    requires s != [] && s[0] == MARKER
    ensures IdleLength(idle + s) == |idle|
  {
    if idle == [] {
      assert idle + s == s;
    } else {
      assert (idle + s)[1..] == idle[1..] + s;
      IdlePrefix(idle[1..], s);
    }
  }

  /** One frame behind any idle bytes is read back, and the rest of the stream is untouched. */
  lemma ParseFrame(idle: seq<byte>, m: Message, rest: seq<byte>)
    requires Fits(m) && MARKER !in idle
    ensures Parse(idle + Frame(MARKER, m) + rest) == Some((m, rest))
  {
    var f := Frame(MARKER, m);
    var s := idle + f + rest;
    assert s == idle + (f + rest);
    IdlePrefix(idle, f + rest);
    var p := |idle|;
    WordOfHalves(|m.payload|);
    WordOfHalves(m.flag);
    assert s[p + 1] == f[1] && s[p + 2] == f[2] && s[p + 3] == f[3] && s[p + 4] == f[4];
    assert s[p + 5..p + 5 + |m.payload|] == m.payload;
    assert s[p + 5 + |m.payload|..] == rest;
  }

  /** Every message survives the wire, whatever follows it. */
  ghost predicate AlwaysReadBack(mark: byte, idle: seq<byte>) {
    forall m: Message, rest: seq<byte> ::
      Fits(m) ==> Parse(idle + Frame(mark, m) + rest) == Some((m, rest))
  }

  /** The exact condition for read-back: the sender's marker variable holds 0xff and no idle
      byte does.  A receive restores the former; the wire must provide the latter. */
  lemma ReadBackIff(mark: byte, idle: seq<byte>)
    ensures AlwaysReadBack(mark, idle) <==> mark == 0xff && 0xff !in idle
  {
    if mark == MARKER && MARKER !in idle {
      forall m: Message, rest: seq<byte> | Fits(m)
        ensures Parse(idle + Frame(mark, m) + rest) == Some((m, rest))
      {
        ParseFrame(idle, m, rest);
      }
    } else {
      var m := Message(0, []);
      var s := idle + Frame(mark, m) + [];
      var p := IdleLength(s);
      if p >= |idle| {
        assert s[..p] + s[p..] == s;
        assert forall i | 0 <= i < |idle| :: s[i] == idle[i] && s[..p][i] == s[i];
        assert MARKER !in idle;
        assert s[|idle|] == mark;
        assert forall i | |idle| < i < |s| :: s[i] == 0;
        assert p == |s|;
      }
      assert Parse(s) != Some((m, []));
    }
  }

  /** A stream of frames, each behind its own idle bytes. */
  function Stream(idles: seq<seq<byte>>, ms: seq<Message>): seq<byte>
    requires |idles| == |ms|
    requires forall m | m in ms :: Fits(m)
  {
    if ms == [] then [] else idles[0] + Frame(MARKER, ms[0]) + Stream(idles[1..], ms[1..])
  }

  /** The first receive from a stream returns its first message. */
  lemma ParseHead(idles: seq<seq<byte>>, ms: seq<Message>, tail: seq<byte>)
    requires |idles| == |ms| > 0
    requires forall m | m in ms :: Fits(m)
    requires MARKER !in idles[0]
    ensures Parse(Stream(idles, ms) + tail) == Some((ms[0], Stream(idles[1..], ms[1..]) + tail))
  {
    var rest := Stream(idles[1..], ms[1..]) + tail;
    assert Stream(idles, ms) + tail == idles[0] + Frame(MARKER, ms[0]) + rest;
    ParseFrame(idles[0], ms[0], rest);
  }

  /** What `n` receives in a row return, and the bytes they leave. */
  function ParseMany(s: seq<byte>, n: nat): Option<(seq<Message>, seq<byte>)> {
    if n == 0 then Some(([], s))
    else match Parse(s)
      case None => None
      case Some((m, rest)) =>
        match ParseMany(rest, n - 1)
        case None => None
        case Some((ms, tail)) => Some(([m] + ms, tail))
  }

  /** Framing round trip over whole streams: any messages, any idle bytes other than 0xff. */
  lemma {:induction false} StreamRoundTrip(idles: seq<seq<byte>>, ms: seq<Message>, tail: seq<byte>)
    requires |idles| == |ms|
    requires forall m | m in ms :: Fits(m)
    requires forall idle | idle in idles :: MARKER !in idle
    ensures ParseMany(Stream(idles, ms) + tail, |ms|) == Some((ms, tail))
  {
    if ms == [] {
      assert Stream(idles, ms) + tail == tail;
    } else {
      ParseHead(idles, ms, tail);
      StreamRoundTrip(idles[1..], ms[1..], tail);
      assert [ms[0]] + ms[1..] == ms;
    }
  }

  /** One board's end of the wire: the two C globals and the bytes in each direction. */
  class SpiPort {
    var flag: u16
    var dummy: byte
    var written: seq<byte>
    var incoming: seq<byte>

    constructor (incoming: seq<byte>)
      ensures flag == 0 && dummy == MARKER && written == [] && this.incoming == incoming
    {
      flag, dummy, written := 0, MARKER, [];
      this.incoming := incoming;
    }

    /** `spi_read_blocking`: takes the next `n` bytes; it blocks until they have come. */
    method Read(n: nat) returns (data: seq<byte>)
      requires n <= |incoming|
      modifies this`incoming
      ensures data == old(incoming)[..n] && incoming == old(incoming)[n..]
    {
      data := incoming[..n];
      incoming := incoming[n..];
    }

    method Write(data: seq<byte>)
      modifies this`written
      ensures written == old(written) + data
    {
      written := written + data;
    }

    method SendBlocking(data: seq<byte>, newFlag: u16)
      requires |data| < 0x10000
      modifies this`flag, this`written
      ensures written == old(written) + Frame(dummy, Message(newFlag, data))
      ensures flag == newFlag
    {
      flag := newFlag;
      var len: u16 := |data|;
      var hdr := [dummy, Low(len), High(len), Low(flag), High(flag)];
      Write(hdr);
      Write(data);
    }

    /** Returns once a whole frame has come.  `Parse(..).Some?` says that it will. */
    method ReceiveBlocking() returns (data: seq<byte>)
      requires Parse(incoming).Some?
      modifies this`flag, this`dummy, this`incoming
      ensures Parse(old(incoming)) == Some((Message(flag, data), incoming))
      ensures dummy == MARKER
    {
      ghost var start := incoming;
      ghost var p := IdleLength(incoming);
      assert forall i :: 0 <= i < p ==> start[i] == start[..p][i] != MARKER;
      var b := Read(1);
      dummy := b[0];
      ghost var taken := 1;
      while dummy != MARKER
        invariant 1 <= taken <= p + 1 && incoming == start[taken..]
        invariant dummy == start[taken - 1]
        decreases p - taken
      {
        b := Read(1);
        dummy := b[0];
        taken := taken + 1;
      }
      assert taken == p + 1;
      var hdr := Read(4);
      var len := Word(hdr[0], hdr[1]);
      data := Read(len);
      flag := Word(hdr[2], hdr[3]);
      assert hdr == start[p + 1..p + 5] && data == start[p + 5..p + 5 + len];
    }
  }
}
