/** Fixed-width integers and Ethernet addresses shared by every component. */
module Types {
  const POW16: nat := 0x1_0000
  const POW32: nat := 0x1_0000_0000
  const POW64: nat := 0x1_0000_0000_0000_0000

  type u8 = n: nat | n < 0x100
  type u16 = n: nat | n < 0x1_0000
  type u32 = n: nat | n < 0x1_0000_0000
  type u64 = n: nat | n < 0x1_0000_0000_0000_0000

  /** An Ethernet address, read as a 48-bit big-endian number. */
  type Addr = n: nat | n < 0x1_0000_0000_0000

  datatype Option<+T> = None | Some(value: T)

  /** The six octets of an address, in transmission order. */
  function AddrBytes(a: Addr): (b: seq<u8>)
    ensures |b| == 6
  {
    var q1 := a / 0x100;
    var q2 := q1 / 0x100;
    var q3 := q2 / 0x100;
    var q4 := q3 / 0x100;
    var q5 := q4 / 0x100;
    [q5, q4 % 0x100, q3 % 0x100, q2 % 0x100, q1 % 0x100, a % 0x100]
  }

  /** The number that follows n when an octet is appended. */
  function Shift(n: nat, octet: nat): (r: nat) { n * 0x100 + octet }

  /** The address stored in six octets. */
  function BytesAddr(b: seq<u8>): (a: Addr)
    requires |b| == 6
  {
    Shift(Shift(Shift(Shift(Shift(b[0], b[1]), b[2]), b[3]), b[4]), b[5])
  }

  lemma AddrRoundTrip(a: Addr)
    ensures BytesAddr(AddrBytes(a)) == a
  {}

  lemma ShiftSplits(n: nat, octet: u8)
    ensures Shift(n, octet) / 0x100 == n && Shift(n, octet) % 0x100 == octet
  {}

  lemma BytesOfAddr(b: seq<u8>)
    requires |b| == 6
    ensures AddrBytes(BytesAddr(b)) == b
  {
    var n1: nat := b[0];
    var n2 := Shift(n1, b[1]);
    var n3 := Shift(n2, b[2]);
    var n4 := Shift(n3, b[3]);
    var n5 := Shift(n4, b[4]);
    ShiftSplits(n1, b[1]);
    ShiftSplits(n2, b[2]);
    ShiftSplits(n3, b[3]);
    ShiftSplits(n4, b[4]);
    ShiftSplits(n5, b[5]);
    hide Shift;
  }

  /** The sign of memcmp on two byte strings of one length. */
  function Memcmp(x: seq<u8>, y: seq<u8>): (r: int)
    requires |x| == |y|
    ensures -1 <= r <= 1
    decreases |x|
  {
    if |x| == 0 then 0
    else if x[0] < y[0] then -1
    else if x[0] > y[0] then 1
    else Memcmp(x[1..], y[1..])
  }

  function CompareNum(a: nat, b: nat): (r: int)
    ensures r < 0 <==> a < b
    ensures r > 0 <==> a > b
  {
    if a < b then -1 else if a > b then 1 else 0
  }

  /** Big-endian value of a byte string. */
  ghost function BigEndian(b: seq<u8>): (n: nat)
    decreases |b|
  {
    if |b| == 0 then 0 else Shift(BigEndian(b[..|b| - 1]), b[|b| - 1])
  }

  /** The last octet decides only between strings that agree before it. */
  lemma {:induction false} MemcmpLast(x: seq<u8>, y: seq<u8>, a: u8, b: u8)
    requires |x| == |y|
    ensures Memcmp(x + [a], y + [b]) == if Memcmp(x, y) != 0 then Memcmp(x, y) else CompareNum(a, b)
    decreases |x|
  {
    if |x| > 0 && x[0] == y[0] {
      assert (x + [a])[1..] == x[1..] + [a] && (y + [b])[1..] == y[1..] + [b];
      MemcmpLast(x[1..], y[1..], a, b);
    }
  }

  lemma {:induction false} MemcmpBigEndian(x: seq<u8>, y: seq<u8>)
    requires |x| == |y|
    ensures Memcmp(x, y) == CompareNum(BigEndian(x), BigEndian(y))
    decreases |x|
  {
    if |x| > 0 {
      var n := |x| - 1;
      MemcmpBigEndian(x[..n], y[..n]);
      MemcmpLast(x[..n], y[..n], x[n], y[n]);
      assert x == x[..n] + [x[n]] && y == y[..n] + [y[n]];
    }
  }

  /** Comparing addresses octet by octet is comparing them as numbers. */
  lemma CompareAddrIsNumeric(a: Addr, b: Addr)
    ensures Memcmp(AddrBytes(a), AddrBytes(b)) == CompareNum(a, b)
  {
    MemcmpBigEndian(AddrBytes(a), AddrBytes(b));
    AddrBigEndian(AddrBytes(a));
    AddrBigEndian(AddrBytes(b));
  }

  lemma AddrBigEndian(b: seq<u8>)
    requires |b| == 6
    ensures BigEndian(b) == BytesAddr(b)
  {
    assert b[..6] == b;
    assert b[..5][..4] == b[..4] && b[..4][..3] == b[..3] && b[..3][..2] == b[..2] && b[..2][..1] == b[..1];
    assert BigEndian(b[..1]) == b[0];
    assert BigEndian(b[..2]) == Shift(b[0], b[1]);
    assert BigEndian(b[..3]) == Shift(BigEndian(b[..2]), b[2]);
    assert BigEndian(b[..4]) == Shift(BigEndian(b[..3]), b[3]);
    assert BigEndian(b[..5]) == Shift(BigEndian(b[..4]), b[4]);
  }
}
