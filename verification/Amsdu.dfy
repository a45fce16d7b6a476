/** Receiving data frames, alone and aggregated. */
module Amsdu {
  import opened Types
  import opened Wire
  import opened Rx

  const ETHER_MAX_LEN: nat := 1518
  const ETH_P_IPV6: u16 := 0x86dd
  /** Ethernet frames that one received frame can be turned into. */
  const MAX_NUM_AMPDU: nat := 16

  /** An output buffer. Its length is fixed, and bytes not written are as they were. */
  type Block = b: Bytes | |b| == ETHER_MAX_LEN ghost witness seq(ETHER_MAX_LEN, _ => 0)

  /** The SNAP header in front of AWDL data; the OUI is not looked at. */
  predicate ValidLlc(b: Bytes) {
    InBounds(b, 0, 8) && b[0] == 0xaa && b[1] == 0xaa && b[2] == 0x03 && ReadBe16(b, 6) == Some(0x0800)
  }

  function EtherHeader(dst: Addr, src: Addr, etherType: u16): (b: Bytes)
    ensures |b| == 14
  {
    AddrBytes(dst) + AddrBytes(src) + Be16(etherType)
  }

  /** What is written at the front of a buffer: a payload that does not fit is not copied. */
  function Front(dst: Addr, src: Addr, etherType: u16, payload: Bytes): (b: Bytes)
    ensures 14 <= |b| <= ETHER_MAX_LEN
  {
    EtherHeader(dst, src, etherType) + if 14 + |payload| <= ETHER_MAX_LEN then payload else []
  }

  function Written(was: Block, front: Bytes): (b: Block)
    requires |front| <= ETHER_MAX_LEN
  {
    front + was[|front|..]
  }

  datatype Data = Data(code: int, out: Option<Block>)

  /** Turns an AWDL data frame of a known peer into an Ethernet frame, in a buffer
      that held `was`. */
  function Receive(b: Bytes, dst: Addr, src: Addr, known: set<Addr>, was: Block): (r: Data)
    ensures r.out.Some? ==> r.code == RX_OK && |b| >= 16
  {
    if src !in known then Data(RX_IGNORE_PEER, None)
    else if !ValidLlc(b) then Data(RX_UNEXPECTED_FORMAT, None)
    else if |b| < 16 then Data(RX_TOO_SHORT, None)
    else Data(RX_OK, Some(Written(was, Front(dst, src, Shift(b[14], b[15]), b[16..]))))
  }

  /** When a data frame is turned away, by its octets. */
  lemma ReceiveRefuses(b: Bytes, dst: Addr, src: Addr, known: set<Addr>, was: Block)
    ensures var r := Receive(b, dst, src, known, was);
            var llc := |b| >= 8 && b[..3] == [0xaa, 0xaa, 0x03] && b[6..8] == [0x08, 0x00];
            && (r.code == 6 <==> src !in known)
            && (r.code == -1 <==> src in known && !llc)
            && (r.code == -3 <==> src in known && llc && |b| < 16)
            && (r.code == 0 <==> src in known && llc && |b| >= 16) && (r.out.Some? <==> r.code == 0)
  {
    hide Front, Written;
    if |b| >= 8 { assert b[6..8] == [b[6], b[7]] && b[..3] == [b[0], b[1], b[2]]; }
  }

  /** The same, write by write. */
  method RxData(frame: Buf, dst: Addr, src: Addr, known: set<Addr>, out: Buf) returns (code: int, used: bool)
    requires frame.Valid() && out.Valid() && out.len == ETHER_MAX_LEN && frame != out && frame.store != out.store
    modifies frame, out.store
    ensures frame.Valid()
    ensures Data(code, if used then Some(out.Contents()) else None)
              == Receive(old(frame.Contents()), dst, src, known, old(out.Contents()))
  {
    hide EtherHeader, AddrBytes, Be16, ValidLlc, ReadBe16;
    ghost var b := frame.Contents();
    if src !in known { return RX_IGNORE_PEER, false; }
    if !ValidLlc(frame.Contents()) { return RX_UNEXPECTED_FORMAT, false; }
    LlcLong(b);
    var _ := frame.Strip(8);
    if frame.len < 8 { return RX_TOO_SHORT, false; }
    EtherType(b);
    var etherType := ReadBe16(frame.Contents(), 6).value;
    var _ := frame.Strip(8);
    var payload := frame.Contents();
    assert payload == b[16..];
    Fill(out, dst, src, etherType, payload);
    return RX_OK, true;
  }

  lemma LlcLong(b: Bytes)
    requires ValidLlc(b)
    ensures |b| >= 8
  {}

  lemma EtherType(b: Bytes)
    requires |b| >= 16
    ensures ReadBe16(b[8..], 6) == Some(Shift(b[14], b[15]))
  {}

  /** Four writes into the output buffer; the last one may be out of bounds. */
  method Fill(out: Buf, dst: Addr, src: Addr, etherType: u16, payload: Bytes)
    requires out.Valid() && out.len == ETHER_MAX_LEN
    modifies out.store
    ensures out.Contents() == Written(old(out.Contents()), Front(dst, src, etherType, payload))
  {
    hide AddrBytes, Be16, Overwritten;
    ghost var was := out.Contents();
    var d, s, e := AddrBytes(dst), AddrBytes(src), Be16(etherType);
    WriteAt(out, 0, d);
    WriteAt(out, 6, s);
    WriteAt(out, 12, e);
    HeaderWritten(was, d, s, e);
    WriteAt(out, 14, payload);
    PayloadWritten(was, EtherHeader(dst, src, etherType), payload);
  }

  /** What an unchecked write leaves: out of bounds, nothing changes. */
  function Overwritten(was: Bytes, off: nat, bytes: Bytes): (b: Bytes)
    ensures |b| == |was|
  {
    if off + |bytes| <= |was| then was[..off] + bytes + was[off + |bytes|..] else was
  }

  method WriteAt(out: Buf, off: nat, bytes: Bytes)
    requires out.Valid()
    modifies out.store
    ensures out.Contents() == Overwritten(old(out.Contents()), off, bytes)
  {
    var _ := out.Write(off, bytes);
  }

  lemma HeaderWritten(was: Block, d: Bytes, s: Bytes, e: Bytes)
    requires |d| == 6 && |s| == 6 && |e| == 2
    ensures Overwritten(Overwritten(Overwritten(was, 0, d), 6, s), 12, e) == d + s + e + was[14..]
  {
    var b := Overwritten(was, 0, d);
    assert b == d + was[6..];
    var c := Overwritten(b, 6, s);
    assert c == d + s + was[12..];
  }

  lemma PayloadWritten(was: Block, header: Bytes, payload: Bytes)
    requires |header| == 14
    ensures Overwritten(header + was[14..], 14, payload)
              == Written(was, header + if 14 + |payload| <= ETHER_MAX_LEN then payload else [])
  {}

  /** Padding after a subframe of len octets. */
  function PadLen(len: nat): (n: nat)
    ensures n < 4
  {
    (4 - (14 + len) % 4) % 4
  }

  /** What one turn of the loop does: result, output, and where the next subframe starts. */
  datatype Turn = Turn(code: int, out: seq<Block>, end: Option<nat>)

  function Subframe(b: Bytes, known: set<Addr>, was: Block): (r: Turn)
    requires |b| > 0
    ensures r.end.Some? ==> 14 <= r.end.value <= |b|
    ensures |r.out| <= 1 && (|r.out| == 1 ==> |b| >= 30)
  {
    match (ReadAddr(b, 0), ReadAddr(b, 6), ReadBe16(b, 12))
    case (Some(dst), Some(src), Some(len)) =>
      if len > |b| - 14 then Turn(RX_TOO_SHORT, [], None)
      else
        var d := Receive(b[14..14 + len], dst, src, known, was);
        var out := if d.out.Some? then [d.out.value] else [];
        if d.code < 0 then Turn(d.code, out, None)
        else if 14 + len < |b| then
          if 14 + len + PadLen(len) > |b| then Turn(RX_TOO_SHORT, out, None)
          else Turn(RX_OK, out, Some(14 + len + PadLen(len)))
        else Turn(RX_OK, out, Some(14 + len))
    case _ => Turn(RX_TOO_SHORT, [], None)
  }

  datatype Deagged = Deagged(code: int, out: seq<Block>)

  /** Splits an A-MSDU. The n-th buffer allocated held junk(n) before. */
  function Deaggregate(b: Bytes, known: set<Addr>, junk: nat -> Block, n: nat): (r: Deagged)
    decreases |b|
  {
    if |b| == 0 then Deagged(RX_OK, [])
    else
      var t := Subframe(b, known, junk(n));
      match t.end
      case None => Deagged(t.code, t.out)
      case Some(end) =>
        var r := Deaggregate(b[end..], known, junk, n + |t.out|);
        r.(out := t.out + r.out)
  }

  /** The frames the caller passes on to the host: none after an error. */
  function Handed(r: Deagged): (out: seq<Block>) { if r.code == RX_OK then r.out else [] }

  /** One turn of the loop: strips the header, the subframe and its padding. */
  method RxSubframe(frame: Buf, known: set<Addr>, was: Block) returns (code: int, out: seq<Block>, go: bool)
    requires frame.Valid() && frame.len > 0
    modifies frame
    ensures frame.Valid()
    ensures var t := Subframe(old(frame.Contents()), known, was);
            && code == t.code && out == t.out && go == t.end.Some?
            && (go ==> frame.Contents() == old(frame.Contents())[t.end.value..])
  {
    hide Receive, ReadAddr, ReadBe16, PadLen, Subframe;
    ghost var b := frame.Contents();
    SubframeSteps(b, known, was);
    out, go := [], false;
    var dst, src, len := ReadAddr(frame.Contents(), 0), ReadAddr(frame.Contents(), 6), ReadBe16(frame.Contents(), 12);
    if dst.None? || src.None? || len.None? { return RX_TOO_SHORT, out, go; }
    var _ := frame.Strip(14);
    if len.value > frame.len { return RX_TOO_SHORT, out, go; }
    code, out := RxPart(frame, len.value, dst.value, src.value, known, was);
    if code < 0 { return; }
    var _ := frame.Strip(len.value);
    if frame.len > 0 {
      var fits := frame.Strip(PadLen(len.value));
      if !fits { return RX_TOO_SHORT, out, go; }
    }
    code, go := RX_OK, true;
  }

  /** A turn in the order in which the buffer is stripped. */
  lemma SubframeSteps(b: Bytes, known: set<Addr>, was: Block)
    requires |b| > 0
    ensures var t := Subframe(b, known, was);
            var dst, src, len := ReadAddr(b, 0), ReadAddr(b, 6), ReadBe16(b, 12);
            if dst.None? || src.None? || len.None? then t == Turn(RX_TOO_SHORT, [], None)
            else
              |b| >= 14 &&
              var rest := b[14..];
              if len.value > |rest| then t == Turn(RX_TOO_SHORT, [], None)
              else
                var d := Receive(rest[..len.value], dst.value, src.value, known, was);
                var tail, pad := rest[len.value..], PadLen(len.value);
                && t.out == (if d.out.Some? then [d.out.value] else [])
                && (d.code < 0 ==> t.code == d.code && t.end == None)
                && (d.code >= 0 && |tail| > 0 && pad > |tail| ==> t.code == RX_TOO_SHORT && t.end == None)
                && (d.code >= 0 && (|tail| == 0 || pad <= |tail|) ==>
                      t.code == RX_OK && t.end.Some? && b[t.end.value..] == if |tail| > 0 then tail[pad..] else tail)
  {
    hide Receive, PadLen;
    if |b| >= 14 {
      var len: nat := ReadBe16(b, 12).value;
      var rest := b[14..];
      if len <= |rest| {
        assert rest[..len] == b[14..14 + len];
        assert rest[len..] == b[14 + len..];
        if PadLen(len) <= |rest| - len { assert rest[len..][PadLen(len)..] == b[14 + len + PadLen(len)..]; }
      }
    }
  }

  /** Receives the next len bytes through a view of their own into a new buffer. */
  method RxPart(frame: Buf, len: nat, dst: Addr, src: Addr, known: set<Addr>, was: Block)
    returns (code: int, out: seq<Block>)
    requires frame.Valid() && len <= frame.len
    ensures var d := Receive(frame.Contents()[..len], dst, src, known, was);
            code == d.code && out == if d.out.Some? then [d.out.value] else []
  {
    hide Receive;
    var sub := new Buf(frame.store, frame.start, len);
    assert sub.Contents() == frame.Contents()[..len];
    var store := new u8[ETHER_MAX_LEN](i requires 0 <= i < ETHER_MAX_LEN => was[i]);
    var buf := new Buf(store, 0, ETHER_MAX_LEN);
    assert buf.Contents() == was;
    var used;
    code, used := RxData(sub, dst, src, known, buf);
    out := if used then [buf.Contents()] else [];
  }

  /** The loop over subframes. */
  method RxAmsdu(frame: Buf, known: set<Addr>, junk: nat -> Block) returns (code: int, out: seq<Block>)
    requires frame.Valid()
    modifies frame
    ensures Deagged(code, out) == Deaggregate(old(frame.Contents()), known, junk, 0)
  {
    hide Subframe, Deaggregate, Ahead;
    ghost var goal := Deaggregate(frame.Contents(), known, junk, 0);
    out := [];
    AheadStart(goal);
    while frame.len > 0
      invariant frame.Valid() && Ahead(goal, Deaggregate(frame.Contents(), known, junk, |out|), out)
      decreases frame.len
    {
      OneTurn(frame.Contents(), known, junk, |out|);
      ghost var t := Subframe(frame.Contents(), known, junk(|out|));
      var more, go;
      code, more, go := RxSubframe(frame, known, junk(|out|));
      ghost var rest :=
        if go then Deaggregate(frame.Contents(), known, junk, |out| + |more|) else Deagged(code, []);
      AheadNext(goal, rest, more, out);
      out := out + more;
      if !go {
        AheadEnd(goal, code, out);
        return;
      }
    }
    NothingLeft(known, junk, |out|);
    AheadEnd(goal, RX_OK, out);
    code := RX_OK;
  }

  /** The goal is reached by adding to `out` what is still to come. */
  ghost predicate Ahead(goal: Deagged, rest: Deagged, out: seq<Block>) { goal == rest.(out := out + rest.out) }

  lemma AheadStart(goal: Deagged)
    ensures Ahead(goal, goal, [])
  {
    assert [] + goal.out == goal.out;
  }

  lemma AheadNext(goal: Deagged, rest: Deagged, more: seq<Block>, out: seq<Block>)
    requires Ahead(goal, rest.(out := more + rest.out), out)
    ensures Ahead(goal, rest, out + more)
  {
    assert out + (more + rest.out) == out + more + rest.out;
  }

  lemma AheadEnd(goal: Deagged, code: int, out: seq<Block>)
    requires Ahead(goal, Deagged(code, []), out)
    ensures goal == Deagged(code, out)
  {
    assert out + [] == out;
  }

  lemma OneTurn(b: Bytes, known: set<Addr>, junk: nat -> Block, n: nat)
    requires |b| > 0
    ensures var t := Subframe(b, known, junk(n));
            var rest :=
              if t.end.Some? then Deaggregate(b[t.end.value..], known, junk, n + |t.out|) else Deagged(t.code, []);
            Deaggregate(b, known, junk, n) == rest.(out := t.out + rest.out)
  {
    hide Subframe;
    var t := Subframe(b, known, junk(n));
    assert t.out + [] == t.out;
  }

  /** Padding is the least that makes a subframe a multiple of four octets long. */
  lemma PadAligns(len: nat)
    ensures PadLen(len) < 4 && (14 + len + PadLen(len)) % 4 == 0
    ensures len >= 16 ==> 14 + len + PadLen(len) >= 32
  {}

  /** Every output takes 30 bytes of input, and 2 more unless it is the last. */
  lemma {:induction false} OutputsBounded(b: Bytes, known: set<Addr>, junk: nat -> Block, n: nat)
    ensures var out := Deaggregate(b, known, junk, n).out; out != [] ==> 32 * |out| - 2 <= |b|
    decreases |b|
  {
    hide Deaggregate;
    if |b| == 0 {
      NothingLeft(known, junk, n);
    } else {
      var t := Subframe(b, known, junk(n));
      hide ReadAddr, ReadBe16, PadLen, ValidLlc, Front, Written;
      if ReadBe16(b, 12).Some? { PadAligns(ReadBe16(b, 12).value); }
      assert t.out != [] && t.end.Some? && t.end.value < |b| ==> t.end.value >= 32;
      hide Subframe, Receive;
      OneTurn(b, known, junk, n);
      if t.end.Some? { OutputsBounded(b[t.end.value..], known, junk, n + |t.out|); }
    }
  }

  // ----- aggregation, as the standard lays it out

  datatype Sub = Sub(dst: Addr, src: Addr, seqNo: u16, etherType: u16, payload: Bytes)

  const LLC: Bytes := [0xaa, 0xaa, 0x03, 0x00, 0x17, 0xf2, 0x08, 0x00]

  /** LLC and AWDL data header in front of the payload. */
  function DataBody(seqNo: u16, etherType: u16, payload: Bytes): (b: Bytes)
    ensures |b| == 16 + |payload|
  {
    LLC + (Le16(0x0403) + Le16(seqNo) + Le16(0) + Be16(etherType)) + payload
  }

  /** SNAP header, magic number, sequence number, padding and ethertype, octet by octet. */
  lemma DataLayout(seqNo: u16, etherType: u16, payload: Bytes)
    ensures var b := DataBody(seqNo, etherType, payload);
            && b[..10] == [0xaa, 0xaa, 0x03, 0x00, 0x17, 0xf2, 0x08, 0x00, 0x03, 0x04]
            && ReadLe16(b, 10) == Some(seqNo) && b[12..14] == [0, 0] && ReadBe16(b, 14) == Some(etherType)
            && b[16..] == payload
  {
    var b := DataBody(seqNo, etherType, payload);
    assert b[10..12] == Le16(seqNo);
    Le16At(b, 10, seqNo);
    assert b[14..16] == Be16(etherType);
    Be16At(b, 14, etherType);
  }

  predicate Fits(s: Sub) { 16 + |s.payload| < POW16 }

  function SubBytes(s: Sub): (b: Bytes)
    requires Fits(s)
    ensures |b| == 30 + |s.payload|
  {
    var body := DataBody(s.seqNo, s.etherType, s.payload);
    AddrBytes(s.dst) + AddrBytes(s.src) + Be16(|body|) + body
  }

  /** Subframes padded to four octets, except the last (section 8.3.2.2 of IEEE 802.11-2012). */
  function Aggregate(subs: seq<Sub>): (b: Bytes)
    requires forall i :: 0 <= i < |subs| ==> Fits(subs[i])
    decreases |subs|
  {
    if subs == [] then []
    else if |subs| == 1 then SubBytes(subs[0])
    else SubBytes(subs[0]) + seq(PadLen(16 + |subs[0].payload|), _ => 0) + Aggregate(subs[1..])
  }

  /** The buffer that should come out, and the subframes it should come out for. */
  function Ethernet(s: Sub, was: Block): (b: Block) { Written(was, Front(s.dst, s.src, s.etherType, s.payload)) }

  function FromKnown(subs: seq<Sub>, known: set<Addr>): (r: seq<Sub>) {
    if subs == [] then [] else (if subs[0].src in known then [subs[0]] else []) + FromKnown(subs[1..], known)
  }

  /** block carries s: addresses, ethertype and payload come first, if they fit. */
  predicate Carries(block: Block, s: Sub) {
    && block[..14] == AddrBytes(s.dst) + AddrBytes(s.src) + Be16(s.etherType)
    && (14 + |s.payload| <= ETHER_MAX_LEN ==> block[14..14 + |s.payload|] == s.payload)
  }

  lemma ReceiveBody(seqNo: u16, etherType: u16, payload: Bytes, dst: Addr, src: Addr, known: set<Addr>, was: Block)
    ensures Receive(DataBody(seqNo, etherType, payload), dst, src, known, was) ==
              if src !in known then Data(RX_IGNORE_PEER, None)
              else Data(RX_OK, Some(Ethernet(Sub(dst, src, seqNo, etherType, payload), was)))
    ensures Carries(Ethernet(Sub(dst, src, seqNo, etherType, payload), was), Sub(dst, src, seqNo, etherType, payload))
  {
    var b := DataBody(seqNo, etherType, payload);
    assert b[16..] == payload;
    assert b[14..16] == Be16(etherType);
    Be16At(b, 14, etherType);
    hide AddrBytes, Be16;
    EthernetCarries(Sub(dst, src, seqNo, etherType, payload), was);
  }

  lemma EthernetCarries(s: Sub, was: Block)
    ensures Carries(Ethernet(s, was), s)
  {
    hide AddrBytes, Be16;
  }

  /** The loop takes one whole subframe off the front. */
  lemma SubframeOf(s: Sub, rest: Bytes, known: set<Addr>, was: Block)
    requires Fits(s)
    ensures var len := 16 + |s.payload|;
            Subframe(SubBytes(s) + rest, known, was) ==
              var out := if s.src in known then [Ethernet(s, was)] else [];
              if |rest| == 0 then Turn(RX_OK, out, Some(14 + len))
              else if PadLen(len) > |rest| then Turn(RX_TOO_SHORT, out, None)
              else Turn(RX_OK, out, Some(14 + len + PadLen(len)))
  {
    var body := DataBody(s.seqNo, s.etherType, s.payload);
    var b := SubBytes(s) + rest;
    hide AddrBytes, Be16, DataBody, Ethernet, Receive, ReadAddr, ReadBe16, PadLen;
    assert b[0..6] == AddrBytes(s.dst);
    AddrAt(b, 0, s.dst);
    assert b[6..12] == AddrBytes(s.src);
    AddrAt(b, 6, s.src);
    assert b[12..14] == Be16(|body|);
    Be16At(b, 12, |body|);
    assert b[14..14 + |body|] == body;
    ReceiveBody(s.seqNo, s.etherType, s.payload, s.dst, s.src, known, was);
  }

  /** One Ethernet frame per subframe of a known peer, in order, in the buffers as allocated. */
  ghost predicate Emits(r: Deagged, subs: seq<Sub>, known: set<Addr>, junk: nat -> Block, n: nat) {
    var from := FromKnown(subs, known);
    && r.code == RX_OK && |r.out| == |from|
    && forall i :: 0 <= i < |from| ==> r.out[i] == Ethernet(from[i], junk(n + i))
  }

  lemma EmitsMore(s: Sub, subs: seq<Sub>, known: set<Addr>, junk: nat -> Block, n: nat, out: seq<Block>, r: Deagged)
    requires subs != [] && subs[0] == s && out == (if s.src in known then [Ethernet(s, junk(n))] else [])
    requires Emits(r, subs[1..], known, junk, n + |out|)
    ensures Emits(r.(out := out + r.out), subs, known, junk, n)
  {
    hide Ethernet;
    var from, more := FromKnown(subs[1..], known), FromKnown(subs, known);
    forall i | 0 <= i < |more| ensures (out + r.out)[i] == Ethernet(more[i], junk(n + i)) {
      if i >= |out| {
        var j := i - |out|;
        assert r.out[j] == Ethernet(from[j], junk(n + |out| + j));
      }
    }
  }

  /** Deaggregation inverts aggregation, whatever peers are known. */
  lemma {:induction false} DeaggregateInverts(subs: seq<Sub>, known: set<Addr>, junk: nat -> Block, n: nat)
    requires forall i :: 0 <= i < |subs| ==> Fits(subs[i])
    ensures Emits(Deaggregate(Aggregate(subs), known, junk, n), subs, known, junk, n)
    decreases |subs|
  {
    hide Deaggregate, SubBytes, Ethernet, PadLen, Emits;
    if subs == [] {
      NothingLeft(known, junk, n);
    } else {
      var s := subs[0];
      var out := if s.src in known then [Ethernet(s, junk(n))] else [];
      var tail := Aggregate(subs[1..]);
      if |subs| == 1 {
        assert subs[1..] == [];
        LastStep(s, known, junk, n);
      } else {
        AggregateNonEmpty(subs[1..]);
        PaddedStep(s, tail, known, junk, n);
      }
      DeaggregateInverts(subs[1..], known, junk, n + |out|);
      EmitsMore(s, subs, known, junk, n, out, Deaggregate(tail, known, junk, n + |out|));
    }
  }

  lemma NothingLeft(known: set<Addr>, junk: nat -> Block, n: nat)
    ensures Deaggregate([], known, junk, n) == Deagged(RX_OK, [])
    ensures Emits(Deagged(RX_OK, []), [], known, junk, n)
  {}

  lemma LastStep(s: Sub, known: set<Addr>, junk: nat -> Block, n: nat)
    requires Fits(s)
    ensures var out := if s.src in known then [Ethernet(s, junk(n))] else [];
            var r := Deaggregate([], known, junk, n + |out|);
            Deaggregate(SubBytes(s), known, junk, n) == r.(out := out + r.out)
  {
    hide SubBytes, Ethernet, Subframe;
    var b, none: Bytes := SubBytes(s), [];
    assert b + none == b;
    SubframeOf(s, none, known, junk(n));
    assert b[|b|..] == none;
  }

  lemma PaddedStep(s: Sub, tail: Bytes, known: set<Addr>, junk: nat -> Block, n: nat)
    requires Fits(s) && |tail| > 0
    ensures var out := if s.src in known then [Ethernet(s, junk(n))] else [];
            var r := Deaggregate(tail, known, junk, n + |out|);
            Deaggregate(SubBytes(s) + seq(PadLen(16 + |s.payload|), _ => 0) + tail, known, junk, n)
              == r.(out := out + r.out)
  {
    hide SubBytes, Ethernet, Subframe, PadLen;
    var pad: Bytes := seq(PadLen(16 + |s.payload|), _ => 0);
    var rest := pad + tail;
    var b := SubBytes(s) + rest;
    assert SubBytes(s) + pad + tail == b;
    SubframeOf(s, rest, known, junk(n));
    assert b[30 + |s.payload| + |pad|..] == tail;
  }

  lemma AggregateNonEmpty(subs: seq<Sub>)
    requires subs != [] && forall i :: 0 <= i < |subs| ==> Fits(subs[i])
    ensures |Aggregate(subs)| > 0
  {}

  /** What the host gets for an aggregated frame: for each subframe of a known peer, in
      order, a buffer that starts with its addresses, ethertype and payload. */
  lemma HostGets(subs: seq<Sub>, known: set<Addr>, junk: nat -> Block)
    requires forall i :: 0 <= i < |subs| ==> Fits(subs[i])
    ensures var out, from := Handed(Deaggregate(Aggregate(subs), known, junk, 0)), FromKnown(subs, known);
            |out| == |from| && forall i :: 0 <= i < |out| ==> Carries(out[i], from[i])
  {
    hide Deaggregate, Carries, Ethernet;
    DeaggregateInverts(subs, known, junk, 0);
    var out, from := Handed(Deaggregate(Aggregate(subs), known, junk, 0)), FromKnown(subs, known);
    forall i | 0 <= i < |out| ensures Carries(out[i], from[i]) { EthernetCarries(from[i], junk(0 + i)); }
  }

  /** Subframes that are all padded. */
  function Padded(subs: seq<Sub>): (b: Bytes)
    requires forall i :: 0 <= i < |subs| ==> Fits(subs[i])
    decreases |subs|
  {
    if subs == [] then []
    else SubBytes(subs[0]) + seq(PadLen(16 + |subs[0].payload|), _ => 0) + Padded(subs[1..])
  }

  /** One stray octet at the end, and the host gets none of the frames received before it. */
  lemma {:induction false} StrayOctet(subs: seq<Sub>, x: u8, known: set<Addr>, junk: nat -> Block, n: nat)
    requires forall i :: 0 <= i < |subs| ==> Fits(subs[i])
    ensures var r := Deaggregate(Padded(subs) + [x], known, junk, n);
            r.code == RX_TOO_SHORT && |r.out| == |FromKnown(subs, known)| && Handed(r) == []
    decreases |subs|
  {
    hide SubBytes, Ethernet, PadLen;
    if subs == [] {
      assert [] + [x] == [x];
    } else {
      hide Deaggregate;
      var s, rest := subs[0], Padded(subs[1..]);
      var front: Bytes := SubBytes(s) + seq(PadLen(16 + |s.payload|), _ => 0);
      assert front + rest + [x] == front + (rest + [x]);
      PaddedStep(s, rest + [x], known, junk, n);
      StrayOctet(subs[1..], x, known, junk, n + if s.src in known then 1 else 0);
    }
  }

  // ----- how many output slots a frame needs

  /** No frame of this length, well-formed or not, is turned into more than `slots`
      Ethernet frames. Slots are filled before an error further on is noticed. */
  ghost predicate SlotsSuffice(len: nat, slots: nat) {
    forall b: Bytes, known: set<Addr>, junk: nat -> Block ::
      |b| == len ==> |Deaggregate(b, known, junk, 0).out| <= slots
  }

  /** Whatever follows the subframes of an aggregate, they are all turned into frames. */
  lemma {:induction false} TailKeepsOutputs(subs: seq<Sub>, tail: Bytes, known: set<Addr>, junk: nat -> Block, n: nat)
    requires forall i :: 0 <= i < |subs| ==> Fits(subs[i])
    ensures |Deaggregate(Aggregate(subs) + tail, known, junk, n).out| >= |FromKnown(subs, known)|
    decreases |subs|
  {
    hide SubBytes, Ethernet, PadLen, Subframe;
    if |subs| == 1 {
      SubframeOf(subs[0], tail, known, junk(n));
      assert subs[1..] == [];
    } else if subs != [] {
      hide Deaggregate;
      var s, rest := subs[0], Aggregate(subs[1..]);
      var front: Bytes := SubBytes(s) + seq(PadLen(16 + |s.payload|), _ => 0);
      assert front + rest + tail == front + (rest + tail);
      AggregateNonEmpty(subs[1..]);
      PaddedStep(s, rest + tail, known, junk, n);
      TailKeepsOutputs(subs[1..], tail, known, junk, n + if s.src in known then 1 else 0);
    }
  }

  /** The shortest aggregate of n subframes: no payload, 30 octets and 2 of padding each. */
  function Crowd(n: nat): (subs: seq<Sub>) { seq(n, _ => Sub(0, 0, 0, 0, [])) }

  lemma {:induction false} CrowdLength(n: nat)
    requires n > 0
    ensures |Aggregate(Crowd(n))| == 32 * n - 2 && |FromKnown(Crowd(n), {0})| == n
    decreases n
  {
    assert Crowd(n)[1..] == Crowd(n - 1);
    if n > 1 { CrowdLength(n - 1); }
  }

  /** The exact length below which n slots always suffice; it is 542 octets for 16. */
  lemma SlotsExact(len: nat, slots: nat)
    ensures SlotsSuffice(len, slots) <==> len < 32 * (slots + 1) - 2
    ensures SlotsSuffice(len, MAX_NUM_AMPDU) <==> len < 542
  {
    SlotsNeeded(len, slots);
    SlotsNeeded(len, MAX_NUM_AMPDU);
  }

  lemma SlotsNeeded(len: nat, slots: nat)
    ensures SlotsSuffice(len, slots) <==> len < 32 * (slots + 1) - 2
  {
    hide Deaggregate, Aggregate, FromKnown;
    if len < 32 * (slots + 1) - 2 {
      forall b: Bytes, known: set<Addr>, junk: nat -> Block | |b| == len
        ensures |Deaggregate(b, known, junk, 0).out| <= slots
      {
        OutputsBounded(b, known, junk, 0);
      }
    } else {
      var subs, known: set<Addr> := Crowd(slots + 1), {0};
      CrowdLength(slots + 1);
      var tail: Bytes := seq(len - |Aggregate(subs)|, _ => 0);
      var junk: nat -> Block := n => seq(ETHER_MAX_LEN, _ => 0);
      TailKeepsOutputs(subs, tail, known, junk, 0);
      assert |Aggregate(subs) + tail| == len && |Deaggregate(Aggregate(subs) + tail, known, junk, 0).out| > slots;
    }
  }

  // ----- a single data frame, from host to host

  /** What the sender transmits for an Ethernet frame: it always says IPv6. */
  function SentBody(ether: Bytes, seqNo: u16): (b: Bytes)
    requires |ether| >= 14
  {
    DataBody(seqNo, ETH_P_IPV6, ether[14..])
  }

  /** Every Ethernet frame is a header, from which its addresses and ethertype can be
      read, and a payload. */
  lemma EtherFrame(ether: Bytes)
    requires |ether| >= 14
    ensures ether[12..14] == Be16(Shift(ether[12], ether[13]))
    ensures ether
              == EtherHeader(BytesAddr(ether[..6]), BytesAddr(ether[6..12]), Shift(ether[12], ether[13])) + ether[14..]
  {
    BytesOfAddr(ether[..6]);
    BytesOfAddr(ether[6..12]);
    TypeBytes(ether[12], ether[13]);
    hide AddrBytes, BytesAddr, Be16, Shift;
    assert ether == ether[..6] + ether[6..12] + [ether[12], ether[13]] + ether[14..];
  }

  lemma TypeBytes(hi: u8, lo: u8)
    ensures Shift(hi, lo) < POW16 && Be16(Shift(hi, lo)) == [hi, lo]
  {}

  /** The buffer handed to the host starts with the Ethernet frame that was sent exactly
      if it carries IPv6, since the ethertype of any other frame is lost. It is that frame
      exactly if the frame also has the maximum length, since the buffer is not cut. */
  lemma DataRoundTrip(dst: Addr, src: Addr, etherType: u16, payload: Bytes, seqNo: u16, known: set<Addr>, was: Block)
    requires 14 + |payload| <= 1518 && src in known
    ensures var ether := EtherHeader(dst, src, etherType) + payload;
            var r := Receive(SentBody(ether, seqNo), dst, src, known, was);
            && r.code == RX_OK && r.out.Some?
            && (r.out.value[..|ether|] == ether <==> etherType == 0x86dd)
            && (r.out.value == ether <==> etherType == 0x86dd && |ether| == 1518)
            && r.out.value[|ether|..] == was[|ether|..]
  {
    var ether := EtherHeader(dst, src, etherType) + payload;
    assert ether[14..] == payload;
    ReceiveBody(seqNo, ETH_P_IPV6, payload, dst, src, known, was);
    hide Receive, AddrBytes;
    var front := Front(dst, src, ETH_P_IPV6, payload);
    assert front == EtherHeader(dst, src, ETH_P_IPV6) + payload;
    assert Written(was, front)[..|ether|] == front;
    SameUnlessType(dst, src, etherType, payload);
  }

  lemma SameUnlessType(dst: Addr, src: Addr, etherType: u16, payload: Bytes)
    ensures var a, b := EtherHeader(dst, src, ETH_P_IPV6) + payload, EtherHeader(dst, src, etherType) + payload;
            a == b <==> etherType == ETH_P_IPV6
  {
    var a, b := EtherHeader(dst, src, ETH_P_IPV6) + payload, EtherHeader(dst, src, etherType) + payload;
    hide AddrBytes;
    assert a[12] == 0x86 && a[13] == 0xdd && b[12..14] == Be16(etherType);
  }
}
