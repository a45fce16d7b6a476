/** Building AWDL action and data frames. */
module Tx {
  import opened Types
  import opened Wire
  import opened Election
  import opened PeerModel
  import opened Sync
  import opened Schedule

  const SYNC_PARAMS_TLV: u8 := 4
  const ELECTION_PARAMS_TLV: u8 := 5
  const SERVICE_PARAMS_TLV: u8 := 6
  const HT_CAPABILITIES_TLV: u8 := 7
  const DATA_PATH_STATE_TLV: u8 := 12
  const ARPA_TLV: u8 := 16
  const CHAN_SEQ_TLV: u8 := 18
  const VERSION_TLV: u8 := 21
  const ELECTION_PARAMS_V2_TLV: u8 := 24

  datatype ActionType = Psf | Mif

  /** The sender's state that goes into action frames. */
  datatype Sender = Sender(
    self: Addr,
    name: Bytes,
    version: u8,
    devClass: u8,
    psfInterval: u16,
    election: ElectionState,
    sync: SyncState,
    enc: Encoding,
    sequence: seq<Chan>,
    master: Chan,
    current: Chan)

  predicate ValidSender(s: Sender) {
    Timed(s.sync) && |s.sequence| == CHANSEQ_LENGTH && |s.name| <= HOST_NAME_LENGTH_MAX
  }

  function EncByte(enc: Encoding): (b: u8) {
    match enc
    case Simple => 0
    case Legacy => 1
    case OpClass => 3
    case Unknown => 255
  }

  function EncLength(enc: Encoding): (n: nat)
    ensures n <= 2
  {
    match enc
    case Simple => 1
    case Legacy => 2
    case OpClass => 2
    case Unknown => 0
  }

  /** The octets of one channel entry that the encoding carries. */
  function ChanBytes(c: Chan, enc: Encoding): (b: Bytes)
    ensures |b| == EncLength(enc)
  {
    [c.b0, c.b1][..EncLength(enc)]
  }

  function ListBytes(list: seq<Chan>, enc: Encoding): (b: Bytes)
    ensures |b| == |list| * EncLength(enc)
  {
    if list == [] then []
    else ListBytes(list[..|list| - 1], enc) + ChanBytes(list[|list| - 1], enc)
  }

  function ChanseqBytes(s: Sender): (b: Bytes) {
    [CHANSEQ_LENGTH - 1, EncByte(s.enc), 0, 3] + Le16(0xffff) + ListBytes(s.sequence, s.enc)
  }

  /** What is left of the first AW of the window, given the countdown to the next window. */
  function Remaining(s: SyncState, down: u16): (tu: u16) {
    var elapsed := EawPeriod(s) - down;
    if s.awPeriod < elapsed then 0 else (s.awPeriod - elapsed) % POW16
  }

  /** Between the countdown and the AW number: what changes with the node's settings. */
  function SyncSettings(s: Sender, down: u16): (b: Bytes)
    ensures |b| == 26
  {
    var p := Le16(s.sync.awPeriod);
    var ext: u8 := (s.sync.presenceMode - 1) % 0x100;
    [ChanNum(s.master, s.enc), 0] + p + Le16(s.psfInterval) + Le16(0x1800) + p + p + Le16(Remaining(s.sync, down))
    + [ext, ext, ext, ext] + AddrBytes(s.election.master) + [s.sync.presenceMode, 0]
  }

  /** The fixed part of the synchronisation parameters. */
  function SyncHead(s: Sender, now: u64): (b: Bytes)
    requires ValidSender(s)
    ensures |b| == 33
  {
    var down, aw := NextAwTu(now, s.sync), CurrentAw(now, s.sync);
    [ChanNum(s.current, s.enc)] + Le16(down) + SyncSettings(s, down) + Le16(aw) + Le16(aw)
  }

  function SyncParams(s: Sender, now: u64): (b: Bytes)
    requires ValidSender(s)
  {
    SyncHead(s, now) + ChanseqBytes(s) + [0, 0]
  }

  function ElectionParams(s: Sender): (b: Bytes)
    ensures |b| == 21
  {
    [0, 0, 0, s.election.height % 0x100, 0] + AddrBytes(s.election.master)
    + Le32(s.election.masterMetric) + Le32(s.election.selfMetric) + [0, 0]
  }

  function ElectionParamsV2(s: Sender): (b: Bytes)
    ensures |b| == 40
  {
    var e := s.election;
    AddrBytes(e.master) + AddrBytes(e.sync) + Le32(e.masterCounter) + Le32(e.height) + Le32(e.masterMetric)
    + Le32(e.selfMetric) + Le32(0) + Le32(0) + Le32(e.selfCounter)
  }

  function SocialChannels(c: Chan): (n: u16) {
    if c.b0 == 6 then 1 else if c.b0 == 44 then 2 else 4
  }

  function DataPathState(s: Sender): (b: Bytes)
    ensures |b| == 15
  {
    Le16(0x8f24) + ['X' as nat, '0' as nat, 0] + Le16(SocialChannels(s.master)) + AddrBytes(s.self) + Le16(0)
  }

  function Arpa(s: Sender): (b: Bytes)
    requires ValidSender(s)
    ensures |b| == 4 + |s.name|
  {
    [3, |s.name|] + s.name + Be16(0xc00c)
  }

  const SERVICE_PARAMS: Bytes := [0, 0, 0, 0, 0, 0, 0, 0, 0]

  const HT_VALUE: Bytes := Le16(0) + Le16(0x11ce) + [0x1b, 0xff] + Le16(0)

  /** The TLVs of an action frame, in order. */
  function ActionTlvs(s: Sender, kind: ActionType, now: u64): (t: seq<Tlv>)
    requires ValidSender(s)
  {
    [Tlv(SYNC_PARAMS_TLV, SyncParams(s, now)),
     Tlv(ELECTION_PARAMS_TLV, ElectionParams(s)),
     Tlv(CHAN_SEQ_TLV, ChanseqBytes(s) + [0, 0, 0]),
     Tlv(ELECTION_PARAMS_V2_TLV, ElectionParamsV2(s)),
     Tlv(SERVICE_PARAMS_TLV, SERVICE_PARAMS)]
    + (if kind == Mif then [Tlv(HT_CAPABILITIES_TLV, HT_VALUE), Tlv(ARPA_TLV, Arpa(s))] else [])
    + [Tlv(DATA_PATH_STATE_TLV, DataPathState(s)), Tlv(VERSION_TLV, [s.version, s.devClass])]
  }

  ghost predicate Writable(tlvs: seq<Tlv>) { forall i :: 0 <= i < |tlvs| ==> |tlvs[i].value| < POW16 }

  lemma ActionTlvsWritable(s: Sender, kind: ActionType, now: u64)
    requires ValidSender(s)
    ensures Writable(ActionTlvs(s, kind, now))
  {
    assert |ListBytes(s.sequence, s.enc)| <= 32;
  }

  function TlvBytes(tlvs: seq<Tlv>): (b: Bytes)
    requires Writable(tlvs)
    decreases |tlvs|
  {
    if tlvs == [] then [] else WriteTlv(tlvs[0]) + TlvBytes(tlvs[1..])
  }

  function ActionHdr(kind: ActionType, now: u64): (b: Bytes)
    ensures |b| == 16
  {
    var t: u32 := now % POW32;
    [127, 0x00, 0x17, 0xf2, 8, 0x10, if kind == Mif then 3 else 0, 0] + Le32(t) + Le32(t)
  }

  /** An action frame after its IEEE 802.11 header. */
  function ActionBody(s: Sender, kind: ActionType, now: u64): (b: Bytes)
    requires ValidSender(s)
  {
    ActionTlvsWritable(s, kind, now);
    ActionHdr(kind, now) + TlvBytes(ActionTlvs(s, kind, now))
  }

  // ----- writing into the frame buffer

  /** Copies bytes to offset off, where the frame built so far ends. */
  method Emit(buf: array<u8>, off: nat, bytes: Bytes) returns (end: nat)
    requires off + |bytes| <= buf.Length
    modifies buf
    ensures end == off + |bytes| && buf[..end] == old(buf[..off]) + bytes && buf[end..] == old(buf[off + |bytes|..])
  {
    forall i | 0 <= i < |bytes| { buf[off + i] := bytes[i]; }
    end := off + |bytes|;
    assert forall i :: off <= i < end ==> buf[i] == bytes[i - off];
  }

  /** The channel list, entry by entry. */
  method EmitChanseq(buf: array<u8>, off: nat, s: Sender) returns (end: nat)
    requires |s.sequence| == CHANSEQ_LENGTH && off + 38 <= buf.Length
    modifies buf
    ensures end == off + |ChanseqBytes(s)| <= off + 38
    ensures buf[..end] == old(buf[..off]) + ChanseqBytes(s)
  {
    hide EncLength, ChanBytes, ListBytes, Le16, EncByte;
    var head := [CHANSEQ_LENGTH - 1, EncByte(s.enc), 0, 3] + Le16(0xffff);
    end := Emit(buf, off, head);
    NoList(s.sequence, s.enc);
    var i := 0;
    while i < CHANSEQ_LENGTH
      invariant i <= CHANSEQ_LENGTH && end == off + 6 + |ListBytes(s.sequence[..i], s.enc)| <= off + 6 + 2 * i
      invariant buf[..end] == old(buf[..off]) + (head + ListBytes(s.sequence[..i], s.enc))
    {
      ghost var was, list := buf[..end], ListBytes(s.sequence[..i], s.enc);
      ListGrows(s.sequence, i, s.enc);
      end := Emit(buf, end, ChanBytes(s.sequence[i], s.enc));
      Regroup(old(buf[..off]), head, list, ChanBytes(s.sequence[i], s.enc));
      i := i + 1;
    }
    assert s.sequence[..CHANSEQ_LENGTH] == s.sequence;
  }

  lemma Regroup(was: Bytes, head: Bytes, list: Bytes, more: Bytes)
    ensures was + (head + list) + more == was + (head + (list + more))
  {}

  lemma NoList(list: seq<Chan>, enc: Encoding)
    ensures ListBytes(list[..0], enc) == []
  {}

  lemma ListGrows(list: seq<Chan>, i: nat, enc: Encoding)
    requires i < |list|
    ensures ListBytes(list[..i + 1], enc) == ListBytes(list[..i], enc) + ChanBytes(list[i], enc)
    ensures |ChanBytes(list[i], enc)| <= 2
  {
    assert list[..i + 1][..i] == list[..i];
  }

  /** The first i TLVs have been written behind the header and end at off. */
  ghost predicate Built(buf: array<u8>, off: nat, hdr: Bytes, tlvs: seq<Tlv>, i: nat)
    reads buf
  {
    off <= buf.Length && Writable(tlvs) && i <= |tlvs| && buf[..off] == hdr + TlvBytes(tlvs[..i])
  }

  lemma {:induction false} TlvAppend(tlvs: seq<Tlv>, i: nat)
    requires Writable(tlvs) && i < |tlvs|
    ensures TlvBytes(tlvs[..i + 1]) == TlvBytes(tlvs[..i]) + WriteTlv(tlvs[i])
    decreases i
  {
    hide WriteTlv;
    var all, part := tlvs[..i + 1], tlvs[..i];
    if i == 0 {
      assert all[1..] == [];
    } else {
      var rest := tlvs[1..];
      TlvAppend(rest, i - 1);
      assert all[1..] == rest[..i] && part[1..] == rest[..i - 1];
      var first, last := WriteTlv(tlvs[0]), WriteTlv(tlvs[i]);
      assert first + (TlvBytes(rest[..i - 1]) + last) == first + TlvBytes(rest[..i - 1]) + last;
    }
  }

  lemma BuiltMore(buf: array<u8>, end: nat, hdr: Bytes, tlvs: seq<Tlv>, i: nat, was: Bytes)
    requires Writable(tlvs) && i < |tlvs| && end <= buf.Length
    requires was == hdr + TlvBytes(tlvs[..i]) && buf[..end] == was + WriteTlv(tlvs[i])
    ensures Built(buf, end, hdr, tlvs, i + 1)
  {
    hide WriteTlv, TlvBytes;
    TlvAppend(tlvs, i);
    assert hdr + (TlvBytes(tlvs[..i]) + WriteTlv(tlvs[i])) == hdr + TlvBytes(tlvs[..i]) + WriteTlv(tlvs[i]);
  }

  /** Adds a TLV whose length is known beforehand. */
  method EmitTlv(buf: array<u8>, off: nat, t: Tlv, ghost hdr: Bytes, ghost tlvs: seq<Tlv>, ghost i: nat)
    returns (end: nat)
    requires Built(buf, off, hdr, tlvs, i) && i < |tlvs| && t == tlvs[i] && off + 3 + |t.value| <= buf.Length
    modifies buf
    ensures end == off + 3 + |t.value| && Built(buf, end, hdr, tlvs, i + 1)
  {
    hide WriteTlv, TlvBytes;
    ghost var was := buf[..off];
    end := Emit(buf, off, WriteTlv(t));
    BuiltMore(buf, end, hdr, tlvs, i, was);
  }

  /** Adds a TLV that ends with the channel sequence and padding; the length is
      filled in last. */
  method EmitListTlv(buf: array<u8>, off: nat, kind: u8, head: Bytes, s: Sender, pad: Bytes,
                     ghost hdr: Bytes, ghost tlvs: seq<Tlv>, ghost i: nat) returns (end: nat)
    requires Built(buf, off, hdr, tlvs, i) && i < |tlvs| && |s.sequence| == CHANSEQ_LENGTH
    requires tlvs[i] == Tlv(kind, head + ChanseqBytes(s) + pad)
    requires |head| <= 64 && |pad| <= 3 && off + 108 <= buf.Length
    modifies buf
    ensures end == off + 3 + |tlvs[i].value| <= off + 108 && Built(buf, end, hdr, tlvs, i + 1)
  {
    hide WriteTlv, TlvBytes, ChanseqBytes;
    ghost var was := buf[..off];
    end := EmitList(buf, off, kind, head, s, pad);
    SetLength(buf, off, end, tlvs[i]);
    BuiltMore(buf, end, hdr, tlvs, i, was);
  }

  /** The same with the length still open. */
  method EmitList(buf: array<u8>, off: nat, kind: u8, head: Bytes, s: Sender, pad: Bytes) returns (end: nat)
    requires |s.sequence| == CHANSEQ_LENGTH && |head| <= 64 && |pad| <= 3 && off + 108 <= buf.Length
    modifies buf
    ensures end == off + 3 + |head + ChanseqBytes(s) + pad| <= off + 108
    ensures buf[..end] == old(buf[..off]) + ([kind, 0, 0] + (head + ChanseqBytes(s) + pad))
  {
    hide ChanseqBytes;
    end := Emit(buf, off, [kind, 0, 0]);
    end := Emit(buf, end, head);
    end := EmitChanseq(buf, end, s);
    end := Emit(buf, end, pad);
    Grouped(old(buf[..off]), [kind, 0, 0], head, ChanseqBytes(s), pad);
  }

  lemma Grouped(was: Bytes, tl: Bytes, head: Bytes, list: Bytes, pad: Bytes)
    ensures was + tl + head + list + pad == was + (tl + (head + list + pad))
  {}

  method SetLength(buf: array<u8>, off: nat, end: nat, ghost t: Tlv)
    requires off + 3 <= end <= buf.Length && end == off + 3 + |t.value| && |t.value| < POW16
    requires buf[..end] == buf[..off] + ([t.kind, 0, 0] + t.value)
    modifies buf
    ensures buf[..end] == old(buf[..off]) + WriteTlv(t)
  {
    hide Le16;
    ghost var was, before, rest := buf[..off], buf[..end], buf[off + 3..];
    assert before[..off + 1] == buf[..off + 1] && before[off + 3..] == rest[..end - off - 3];
    var _ := Emit(buf, off + 1, Le16(end - off - 3));
    ghost var after := buf[..end];
    assert after[..off + 3] == buf[..off + 3] && after[off + 3..] == rest[..end - off - 3];
    Patched(was, t, before, after);
  }

  lemma Patched(was: Bytes, t: Tlv, before: Bytes, after: Bytes)
    requires |t.value| < POW16 && before == was + ([t.kind, 0, 0] + t.value) && |after| == |before|
    requires after[..|was| + 3] == before[..|was| + 1] + Le16(|t.value|) && after[|was| + 3..] == before[|was| + 3..]
    ensures after == was + WriteTlv(t)
  {
    hide Le16;
    assert before[..|was| + 1] == was + [t.kind];
    assert before[|was| + 3..] == t.value;
    assert after == after[..|was| + 3] + after[|was| + 3..];
  }

  /** The five TLVs that every action frame starts with. */
  method EmitFirst(buf: array<u8>, off: nat, s: Sender, now: u64, ghost hdr: Bytes, ghost tlvs: seq<Tlv>)
    returns (end: nat)
    requires ValidSender(s) && Built(buf, off, hdr, tlvs, 0) && off <= 16 && buf.Length >= 65535
    requires |tlvs| >= 5 && tlvs[..5] == ActionTlvs(s, Psf, now)[..5]
    modifies buf
    ensures end <= 512 && Built(buf, end, hdr, tlvs, 5)
  {
    hide SyncHead, ElectionParams, ElectionParamsV2, Built, ChanseqBytes;
    assert forall j :: 0 <= j < 5 ==> tlvs[j] == tlvs[..5][j];
    end := EmitListTlv(buf, off, SYNC_PARAMS_TLV, SyncHead(s, now), s, [0, 0], hdr, tlvs, 0);
    end := EmitTlv(buf, end, Tlv(ELECTION_PARAMS_TLV, ElectionParams(s)), hdr, tlvs, 1);
    assert [] + ChanseqBytes(s) == ChanseqBytes(s);
    end := EmitListTlv(buf, end, CHAN_SEQ_TLV, [], s, [0, 0, 0], hdr, tlvs, 2);
    end := EmitTlv(buf, end, Tlv(ELECTION_PARAMS_V2_TLV, ElectionParamsV2(s)), hdr, tlvs, 3);
    end := EmitTlv(buf, end, Tlv(SERVICE_PARAMS_TLV, SERVICE_PARAMS), hdr, tlvs, 4);
  }

  /** The whole action frame, header first and then TLV by TLV. */
  method EmitAction(buf: array<u8>, s: Sender, kind: ActionType, now: u64) returns (end: nat)
    requires ValidSender(s) && buf.Length >= 65535
    modifies buf
    ensures buf.Length >= end && buf[..end] == ActionBody(s, kind, now)
  {
    hide ActionHdr, SyncParams, ElectionParams, ElectionParamsV2, ChanseqBytes, DataPathState, Arpa, Built;
    ghost var hdr, tlvs := ActionHdr(kind, now), ActionTlvs(s, kind, now);
    ActionTlvsWritable(s, kind, now);
    end := Emit(buf, 0, ActionHdr(kind, now));
    NothingBuilt(buf, end, hdr, tlvs);
    end := EmitFirst(buf, end, s, now, hdr, tlvs);
    ghost var i := 5;
    if kind == Mif {
      end := EmitTlv(buf, end, Tlv(HT_CAPABILITIES_TLV, HT_VALUE), hdr, tlvs, 5);
      end := EmitTlv(buf, end, Tlv(ARPA_TLV, Arpa(s)), hdr, tlvs, 6);
      i := 7;
    }
    end := EmitTlv(buf, end, Tlv(DATA_PATH_STATE_TLV, DataPathState(s)), hdr, tlvs, i);
    end := EmitTlv(buf, end, Tlv(VERSION_TLV, [s.version, s.devClass]), hdr, tlvs, i + 1);
    AllBuilt(buf, end, hdr, tlvs);
  }

  lemma NothingBuilt(buf: array<u8>, end: nat, hdr: Bytes, tlvs: seq<Tlv>)
    requires Writable(tlvs) && end <= buf.Length && buf[..end] == [] + hdr
    ensures Built(buf, end, hdr, tlvs, 0)
  {}

  lemma AllBuilt(buf: array<u8>, end: nat, hdr: Bytes, tlvs: seq<Tlv>)
    requires Built(buf, end, hdr, tlvs, |tlvs|)
    ensures end <= buf.Length && Writable(tlvs) && buf[..end] == hdr + TlvBytes(tlvs)
  {
    assert tlvs[..|tlvs|] == tlvs;
  }
}
