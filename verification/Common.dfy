/** Bytes, 16-bit lengths and flags, and the messages the two boards exchange. */
module Common {

  type byte = x: int | 0 <= x < 0x100

  /** `uint16_t` as a number. */
  type u16 = x: int | 0 <= x < 0x10000

  function Low(x: u16): byte { x % 256 }

  function High(x: u16): byte { x / 256 }

  /** The little-endian 16-bit word that two bytes hold. */
  function Word(lo: byte, hi: byte): u16 { lo + 256 * hi }

  lemma WordOfHalves(x: u16)
    ensures Word(Low(x), High(x)) == x
  {
  }

  /** `tu_edpt_number`: the address without its direction bit. */
  function Number(epAddr: byte): byte { epAddr % 16 }

  datatype Option<+T> = None | Some(value: T)

  const USB_DATA: u16 := 0x1
  const SETUP_DATA: u16 := 0x2
  const RESET_USB: u16 := 0x4
  const EDPT_OPEN: u16 := 0x8
  const SLAVE_DATA_QUERY: u16 := 0x10
  const CHG_ADDR: u16 := 0x20
  const CHG_EPX_PACKETSIZE: u16 := 0x40
  const IS_PACKET: u16 := 0x0100
  const FIRST_PACKET: u16 := 0x0200
  const LAST_PACKET: u16 := 0x0400
  const DEBUG_PRINT_AS_STRING: u16 := 0x4000
  const DEBUG_PRINT_AS_HEX: u16 := 0x8000

  /** `flags & bit`, for a `bit` that is a power of two. */
  predicate Has(flags: u16, bit: u16)
    requires bit > 0
  {
    flags / bit % 2 == 1
  }

  /** `get_role()`: the master is a USB device, the slave a USB host. */
  datatype Role = Master | Slave

  /** A queued message: its flag and a payload whose length fits 16 bits. */
  datatype Message = Message(flag: u16, payload: seq<byte>)

  predicate Fits(m: Message) {
    |m.payload| < 0x10000
  }

  /** Capacity of each board's tx and rx queue. */
  const CAPACITY := 20

  /** The frame with which the master ends its half of a round. */
  const QUERY := Message(SLAVE_DATA_QUERY, [])

  predicate IsQuery(m: Message) {
    Has(m.flag, SLAVE_DATA_QUERY)
  }

  function Concat<T>(parts: seq<seq<T>>): seq<T> {
    if parts == [] then [] else parts[0] + Concat(parts[1..])
  }

  lemma ConcatSnoc<T>(parts: seq<seq<T>>, last: seq<T>)
    ensures Concat(parts + [last]) == Concat(parts) + last
  {
    if parts == [] {
      assert parts + [last] == [last];
    } else {
      assert (parts + [last])[1..] == parts[1..] + [last];
      ConcatSnoc(parts[1..], last);
    }
  }

  lemma Regroups<T>(a: seq<T>, b: seq<T>, c: seq<T>)
    ensures a + (b + c) == (a + b) + c
  {
  }

  function Min(a: nat, b: nat): nat {
    if a < b then a else b
  }

  /** Quotients are unique. */
  lemma DivIs(x: nat, m: nat, q: nat, r: nat)
    requires m > 0 && r < m && x == m * q + r
    ensures x / m == q
  {
    var d := x / m - q;
    assert x == m * (x / m) + x % m;
    assert m * d == r - x % m;
    SmallMultiple(m, d);
  }

  lemma SmallMultiple(m: int, d: int)
    requires -m < m * d < m
    ensures d == 0
  {
  }
}
