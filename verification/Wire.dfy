/** Reading and writing primitive values in byte buffers. Out-of-bounds reads give None. */
module Wire {
  import opened Types

  type Bytes = seq<u8>

  function Le16(x: u16): (b: Bytes) ensures |b| == 2 { [x % 0x100, x / 0x100] }

  function Be16(x: u16): (b: Bytes) ensures |b| == 2 { [x / 0x100, x % 0x100] }

  function Le32(x: u32): (b: Bytes)
    ensures |b| == 4
  {
    var q1 := x / 0x100;
    var q2 := q1 / 0x100;
    var q3 := q2 / 0x100;
    [x % 0x100, q1 % 0x100, q2 % 0x100, q3]
  }

  /** The number whose base 256 digits are these, the lowest first. */
  function Weigh(b: Bytes): (n: nat) { if b == [] then 0 else Shift(Weigh(b[1..]), b[0]) }

  /** Little-endian numbers start with the lowest octet, big-endian ones with the highest. */
  lemma OctetWeights(x: u16, y: u32)
    ensures Weigh(Le16(x)) == x && Weigh([Be16(x)[1], Be16(x)[0]]) == x && Weigh(Le32(y)) == y
  {
    WeighTwo(x % 0x100, x / 0x100);
    var q1 := y / 0x100;
    var q2 := q1 / 0x100;
    var q3 := q2 / 0x100;
    WeighTwo(q2 % 0x100, q3);
    assert Le32(y)[1..] == [q1 % 0x100, q2 % 0x100, q3] && Le32(y)[1..][1..] == [q2 % 0x100, q3];
  }

  lemma WeighTwo(lo: u8, hi: u8)
    ensures Weigh([lo, hi]) == Shift(hi, lo)
  {
    assert [lo, hi][1..] == [hi] && [hi][1..] == [];
    assert Weigh([hi]) == Shift(Weigh([]), hi) == hi;
    assert Weigh([lo, hi]) == Shift(Weigh([hi]), lo);
  }

  predicate InBounds(b: Bytes, off: int, n: nat) { 0 <= off && off + n <= |b| }

  function ReadU8(b: Bytes, off: int): (r: Option<u8>) {
    if InBounds(b, off, 1) then Some(b[off]) else None
  }

  function ReadLe16(b: Bytes, off: int): (r: Option<u16>) {
    if InBounds(b, off, 2) then Some(Shift(b[off + 1], b[off])) else None
  }

  function ReadBe16(b: Bytes, off: int): (r: Option<u16>) {
    if InBounds(b, off, 2) then Some(Shift(b[off], b[off + 1])) else None
  }

  function ReadLe32(b: Bytes, off: int): (r: Option<u32>) {
    if InBounds(b, off, 4) then Some(Shift(Shift(Shift(b[off + 3], b[off + 2]), b[off + 1]), b[off])) else None
  }

  function ReadAddr(b: Bytes, off: int): (r: Option<Addr>) {
    if InBounds(b, off, 6) then Some(BytesAddr(b[off..off + 6])) else None
  }

  function ReadBytes(b: Bytes, off: int, n: nat): (r: Option<Bytes>)
    ensures r.Some? ==> |r.value| == n
  {
    if InBounds(b, off, n) then Some(b[off..off + n]) else None
  }

  /** A length octet and that many octets, cut to `max`. */
  function ReadIntString(b: Bytes, off: int, max: u8): (r: Option<Bytes>) {
    match ReadU8(b, off)
    case None => None
    case Some(n) => ReadBytes(b, off + 1, if n > max then max else n)
  }

  datatype Tlv = Tlv(kind: u8, value: Bytes)

  function ReadTlv(b: Bytes, off: int): (r: Option<Tlv>)
    ensures r.Some? ==> off >= 0 && off + 3 + |r.value.value| <= |b|
  {
    match (ReadU8(b, off), ReadLe16(b, off + 1))
    case (Some(kind), Some(n)) =>
      (match ReadBytes(b, off + 3, n)
       case None => None
       case Some(v) => Some(Tlv(kind, v)))
    case _ => None
  }

  // ----- what was written is what is read

  lemma Le16At(b: Bytes, off: nat, x: u16)
    requires off + 2 <= |b| && b[off..off + 2] == Le16(x)
    ensures ReadLe16(b, off) == Some(x)
  {
    assert b[off] == b[off..off + 2][0] && b[off + 1] == b[off..off + 2][1];
  }

  lemma Be16At(b: Bytes, off: nat, x: u16)
    requires off + 2 <= |b| && b[off..off + 2] == Be16(x)
    ensures ReadBe16(b, off) == Some(x)
  {
    assert b[off] == b[off..off + 2][0] && b[off + 1] == b[off..off + 2][1];
  }

  lemma Le32At(b: Bytes, off: nat, x: u32)
    requires off + 4 <= |b| && b[off..off + 4] == Le32(x)
    ensures ReadLe32(b, off) == Some(x)
  {
    var s := b[off..off + 4];
    assert b[off] == s[0] && b[off + 1] == s[1] && b[off + 2] == s[2] && b[off + 3] == s[3];
  }

  lemma AddrAt(b: Bytes, off: nat, a: Addr)
    requires off + 6 <= |b| && b[off..off + 6] == AddrBytes(a)
    ensures ReadAddr(b, off) == Some(a)
  {
    AddrRoundTrip(a);
  }

  function WriteTlv(t: Tlv): (b: Bytes)
    requires |t.value| < POW16
    ensures |b| == 3 + |t.value|
  {
    [t.kind] + Le16(|t.value|) + t.value
  }

  /** Reading the front of a buffer gives back the TLV written there. */
  lemma TlvRoundTrip(t: Tlv, rest: Bytes)
    requires |t.value| < POW16
    ensures ReadTlv(WriteTlv(t) + rest, 0) == Some(t)
    ensures (WriteTlv(t) + rest)[3 + |t.value|..] == rest
  {
    var b := WriteTlv(t) + rest;
    assert b[1..3] == Le16(|t.value|);
    Le16At(b, 1, |t.value|);
    assert b[3..3 + |t.value|] == t.value;
  }

  // ----- the buffer object

  /** A view into a byte array that is narrowed from both ends. */
  class Buf {
    const store: array<u8>
    var start: nat
    var len: nat

    ghost predicate Valid()
      reads this
    {
      start + len <= store.Length
    }

    function Contents(): (b: Bytes)
      requires Valid()
      reads this, store
      ensures |b| == len
    {
      store[start..start + len]
    }

    constructor (store: array<u8>, start: nat, len: nat)
      requires start + len <= store.Length
      ensures Valid() && this.store == store && this.start == start && this.len == len
    {
      this.store, this.start, this.len := store, start, len;
    }

    /** Drops n bytes at the front. */
    method Strip(n: int) returns (ok: bool)
      requires Valid()
      modifies this
      ensures Valid() && ok == (0 <= n <= old(len))
      ensures Contents() == if ok then old(Contents())[n..] else old(Contents())
    {
      if n > len || n < 0 { return false; }
      start := start + n;
      len := len - n;
      return true;
    }

    /** Drops n bytes at the end. */
    method Take(n: int) returns (ok: bool)
      requires Valid()
      modifies this
      ensures Valid() && ok == (0 <= n <= old(len))
      ensures Contents() == if ok then old(Contents())[..old(len) - n] else old(Contents())
    {
      if n > len || n < 0 { return false; }
      len := len - n;
      return true;
    }

    /** Overwrites bytes in place. */
    method Write(off: int, bytes: Bytes) returns (ok: bool)
      requires Valid()
      modifies store
      ensures ok == (0 <= off && off + |bytes| <= len)
      ensures var was := old(Contents());
              Contents() == if ok then was[..off] + bytes + was[off + |bytes|..] else was
      ensures store[..start] == old(store[..start]) && store[start + len..] == old(store[start + len..])
    {
      if off < 0 || off + |bytes| > len { return false; }
      ghost var was := Contents();
      forall i | 0 <= i < |bytes| { store[start + off + i] := bytes[i]; }
      ghost var will := was[..off] + bytes + was[off + |bytes|..];
      forall k | 0 <= k < len ensures store[start + k] == will[k] {
        assert k < off || k >= off + |bytes| ==> store[start + k] == was[k];
        assert off <= k < off + |bytes| ==> store[start + off + (k - off)] == bytes[k - off];
      }
      assert Contents() == will;
      return true;
    }
  }
}
