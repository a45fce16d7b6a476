/** What an action frame says about its sender is what the receiver records. */
module RoundTrip {
  import opened Types
  import opened Wire
  import opened Election
  import opened PeerModel
  import opened Sync
  import opened Schedule
  import opened Tx
  import opened Rx
  import SyncTree

  // ----- a list of TLVs, written and parsed

  /** Handling a list of TLVs in order. */
  function HandleAll(tlvs: seq<Tlv>, p: PeerInfo, n: RxNode, src: Addr, now: u64): (r: Handled)
    requires Timed(n.sync) && |p.sequence| == CHANSEQ_LENGTH
    decreases |tlvs|
  {
    if tlvs == [] then Handled(RX_OK, p, n)
    else
      hide HandleTlv;
      HandleTlvKeeps(p, n, src, tlvs[0], now);
      var r := HandleTlv(p, n, src, tlvs[0], now);
      if r.code < 0 then r.(code := RX_UNEXPECTED_FORMAT) else HandleAll(tlvs[1..], r.peer, r.node, src, now)
  }

  /** Parsing written TLVs consumes every byte and handles exactly the list. */
  lemma {:induction false} ParseWritten(tlvs: seq<Tlv>, p: PeerInfo, n: RxNode, src: Addr, now: u64)
    requires Writable(tlvs) && Timed(n.sync) && |p.sequence| == CHANSEQ_LENGTH
    ensures ParseTlvs(TlvBytes(tlvs), p, n, src, now) == HandleAll(tlvs, p, n, src, now)
    decreases |tlvs|
  {
    hide HandleTlv, ReadTlv, WriteTlv, Kept;
    var b := TlvBytes(tlvs);
    ParseStep(b, p, n, src, now);
    if tlvs == [] {
      EmptyIsNoTlv();
    } else {
      TlvRoundTrip(tlvs[0], TlvBytes(tlvs[1..]));
      HandleTlvKeeps(p, n, src, tlvs[0], now);
      var r := HandleTlv(p, n, src, tlvs[0], now);
      KeptUsable(p, n, r);
      ParseWritten(tlvs[1..], r.peer, r.node, src, now);
    }
  }

  lemma EmptyIsNoTlv()
    ensures ReadTlv([], 0) == None
  {}

  lemma KeptUsable(p: PeerInfo, n: RxNode, r: Handled)
    requires Kept(p, n, r) && Timed(n.sync) && |p.sequence| == CHANSEQ_LENGTH
    ensures Timed(r.node.sync) && |r.peer.sequence| == CHANSEQ_LENGTH
  {}

  // ----- one TLV at a time

  lemma SyncParamsRead(s: Sender, sent: u64)
    requires ValidSender(s)
    ensures ReadLe16(SyncParams(s, sent), 1) == Some(NextAwTu(sent, s.sync))
    ensures ReadLe16(SyncParams(s, sent), 29) == Some(CurrentAw(sent, s.sync))
  {
    var v := SyncParams(s, sent);
    var down, aw := NextAwTu(sent, s.sync), CurrentAw(sent, s.sync);
    hide NextAwTu, CurrentAw, ChanseqBytes, Le16, SyncSettings, ChanNum;
    assert v[1..3] == Le16(down);
    Le16At(v, 1, down);
    assert v[29..31] == Le16(aw);
    Le16At(v, 29, aw);
  }

  /** The clock state after the sync TLV: taken over exactly if the sender is the sync master. */
  function Synced(n: RxNode, src: Addr, s: Sender, sent: u64, now: u64): (r: RxNode)
    requires Timed(n.sync) && ValidSender(s)
  {
    if !IsSyncMaster(n.election, src) then n
    else n.(sync := TakeOver(n.sync, NextAwTu(sent, s.sync), CurrentAw(sent, s.sync), now))
  }

  /** A measurement is counted for every sync frame of the master, and as an error if the
      positions are more than 3 time units apart. */
  lemma MeasurementCounted(s: SyncState, timeToNextAw: u16, awCounter: u16, now: u64)
    requires Standard(s) && s.measTotal < POW64 - 1 && s.measErr < POW64 - 1
    ensures var r := TakeOver(s, timeToNextAw, awCounter, now);
            var d := (64 * (awCounter / 4) + 64 - timeToNextAw) - (now - Epoch(s)) / 1024 % 1048576;
            && r.measTotal == s.measTotal + 1
            && r.measErr == if -3 <= d <= 3 then s.measErr else s.measErr + 1
  {
    ErrorIsDistance(now, timeToNextAw, awCounter, s);
    CountsMeasurement(s, timeToNextAw, awCounter, now);
    hide SyncErrorTu, Epoch, TakeOver;
  }

  lemma CountsMeasurement(s: SyncState, timeToNextAw: u16, awCounter: u16, now: u64)
    requires Timed(s) && s.measTotal < POW64 - 1 && s.measErr < POW64 - 1
    ensures var r, d := TakeOver(s, timeToNextAw, awCounter, now), SyncErrorTu(now, timeToNextAw, awCounter, s);
            r.measTotal == s.measTotal + 1 && r.measErr == if -3 <= d <= 3 then s.measErr else s.measErr + 1
  {
    hide SyncErrorTu, TuToUsec, EawPeriod;
  }

  lemma SyncHandled(p: PeerInfo, n: RxNode, src: Addr, s: Sender, sent: u64, now: u64)
    requires Timed(n.sync) && ValidSender(s)
    ensures var r := HandleSyncParams(p, n, src, SyncParams(s, sent), now);
            r.code >= 0 && r.peer == p && r.node == Synced(n, src, s, sent, now)
  {
    hide ReadLe16, SyncParams, NextAwTu, CurrentAw, TakeOver;
    SyncParamsRead(s, sent);
  }

  lemma ElectionRead(s: Sender)
    ensures var v := ElectionParams(s);
            && ReadU8(v, 3) == Some(s.election.height % 0x100) && ReadAddr(v, 5) == Some(s.election.master)
            && ReadLe32(v, 11) == Some(s.election.masterMetric) && ReadLe32(v, 15) == Some(s.election.selfMetric)
  {
    var v, e := ElectionParams(s), s.election;
    hide AddrBytes, Le32;
    assert v[5..11] == AddrBytes(e.master);
    AddrAt(v, 5, e.master);
    assert v[11..15] == Le32(e.masterMetric);
    Le32At(v, 11, e.masterMetric);
    assert v[15..19] == Le32(e.selfMetric);
    Le32At(v, 15, e.selfMetric);
  }

  /** The first election TLV is ignored once the peer has sent the second version; before
      that it sets the fields that it has, the height modulo 256. */
  lemma ElectionHandled(p: PeerInfo, n: RxNode, s: Sender)
    ensures HandleElection(p, n, ElectionParams(s)) ==
              if p.supportsV2 then Handled(RX_OK, p, n)
              else
                var e := p.election.(height := s.election.height % 256, master := s.election.master,
                                     masterMetric := s.election.masterMetric, selfMetric := s.election.selfMetric);
                Handled(RX_OK, p.(election := e), n)
  {
    ElectionRead(s);
    hide ReadU8, ReadAddr, ReadLe32, ElectionParams;
  }

  lemma ElectionV2Read(s: Sender)
    ensures var v, e := ElectionParamsV2(s), s.election;
            && ReadAddr(v, 0) == Some(e.master) && ReadAddr(v, 6) == Some(e.sync)
            && ReadLe32(v, 12) == Some(e.masterCounter) && ReadLe32(v, 16) == Some(e.height)
            && ReadLe32(v, 20) == Some(e.masterMetric) && ReadLe32(v, 24) == Some(e.selfMetric)
            && ReadLe32(v, 36) == Some(e.selfCounter)
  {
    var v, e := ElectionParamsV2(s), s.election;
    hide AddrBytes, Le32;
    assert v[0..6] == AddrBytes(e.master);
    AddrAt(v, 0, e.master);
    assert v[6..12] == AddrBytes(e.sync);
    AddrAt(v, 6, e.sync);
    assert v[12..16] == Le32(e.masterCounter);
    Le32At(v, 12, e.masterCounter);
    assert v[16..20] == Le32(e.height);
    Le32At(v, 16, e.height);
    assert v[20..24] == Le32(e.masterMetric);
    Le32At(v, 20, e.masterMetric);
    assert v[24..28] == Le32(e.selfMetric);
    Le32At(v, 24, e.selfMetric);
    assert v[36..40] == Le32(e.selfCounter);
    Le32At(v, 36, e.selfCounter);
  }

  /** Whatever the record said before, it then holds the sender's election state. */
  lemma ElectionV2Handled(p: PeerInfo, n: RxNode, s: Sender)
    ensures HandleElectionV2(p, n, ElectionParamsV2(s)) ==
              Handled(RX_OK, p.(election := s.election.(self := p.election.self), supportsV2 := true), n)
  {
    ElectionV2Read(s);
    hide ReadAddr, ReadLe32, ElectionParamsV2;
  }

  lemma {:induction false} ListAt(list: seq<Chan>, enc: Encoding, i: nat)
    requires EncLength(enc) == 2 && i < |list|
    ensures |ListBytes(list, enc)| == 2 * |list|
    ensures ListBytes(list, enc)[2 * i] == list[i].b0 && ListBytes(list, enc)[2 * i + 1] == list[i].b1
    decreases |list|
  {
    var n := |list| - 1;
    assert list[..n + 1] == list;
    ListGrows(list, n, enc);
    if i < n { ListAt(list[..n], enc, i); }
  }

  lemma {:induction false} ChansRead(v: Bytes, list: seq<Chan>, n: nat)
    requires n <= |list| && 6 + 2 * |list| <= |v|
    requires forall i :: 0 <= i < |list| ==> v[6 + 2 * i] == list[i].b0 && v[6 + 2 * i + 1] == list[i].b1
    ensures ReadChans(v, 6, 2, n) == Some(list[..n])
    decreases n
  {
    if n > 0 {
      ChansRead(v, list, n - 1);
      var k := 6 + (n - 1) * 2;
      assert v[k..k + 2] == [list[n - 1].b0, list[n - 1].b1];
      assert list[..n] == list[..n - 1] + [list[n - 1]];
    }
  }

  lemma ChanseqHandled(p: PeerInfo, n: RxNode, s: Sender)
    requires |s.sequence| == CHANSEQ_LENGTH && EncLength(s.enc) == 2 && n.sync.presenceMode == PRESENCE_MODE
    ensures HandleChanseq(p, n, ChanseqBytes(s) + [0, 0, 0]) == Handled(RX_OK, p.(sequence := s.sequence), n)
  {
    var list := ListBytes(s.sequence, s.enc);
    var v := ChanseqBytes(s) + [0, 0, 0];
    ListAt(s.sequence, s.enc, 0);
    forall i | 0 <= i < CHANSEQ_LENGTH
      ensures v[6 + 2 * i] == s.sequence[i].b0 && v[6 + 2 * i + 1] == s.sequence[i].b1
    {
      ListAt(s.sequence, s.enc, i);
      assert v[6 + 2 * i] == list[2 * i] && v[6 + 2 * i + 1] == list[2 * i + 1];
    }
    ChansRead(v, s.sequence, CHANSEQ_LENGTH);
    assert s.sequence[..CHANSEQ_LENGTH] == s.sequence;
    ChanseqHeader(s);
    hide ReadChans, ReadLe16, ReadU8, ListBytes, ChanseqBytes;
  }

  lemma ChanseqHeader(s: Sender)
    ensures var v := ChanseqBytes(s) + [0, 0, 0];
            && ReadU8(v, 0) == Some(15) && ReadU8(v, 1) == Some(EncByte(s.enc)) && ReadU8(v, 2) == Some(0)
            && ReadU8(v, 3) == Some(3) && ReadLe16(v, 4) == Some(0xffff)
  {
    hide ListBytes;
    var v := ChanseqBytes(s) + [0, 0, 0];
    assert v[4..6] == Le16(0xffff);
    Le16At(v, 4, 0xffff);
  }

  /** v starts with the channel sequence that s writes. */
  ghost predicate Wrote(s: Sender, v: Bytes) {
    |s.sequence| == CHANSEQ_LENGTH && s.enc != Unknown && ChanseqBytes(s) <= v
  }

  /** Where the n-th entry starts. */
  function ChanAt(z: nat, n: nat): (k: nat) { 6 + n * z }

  lemma ChanAtNext(z: nat, n: nat)
    ensures ChanAt(z, n + 1) == ChanAt(z, n) + z && ChanAt(z, 0) == 6 && ChanAt(z, n) >= 6
  {}

  /** Channel entries are read exactly if they are all there. */
  lemma {:induction false} ChansThere(v: Bytes, z: nat, n: nat)
    requires 1 <= z <= 2 && |v| >= 6
    ensures ReadChans(v, 6, z, n).Some? <==> ChanAt(z, n) <= |v|
    decreases n
  {
    if n > 0 {
      ChansThere(v, z, n - 1);
      ChanAtNext(z, n - 1);
    }
  }

  lemma ChansLast(v: Bytes, z: nat, n: nat)
    requires 1 <= z <= 2 && |v| >= 6 && ReadChans(v, 6, z, n).Some?
    ensures n == 0 ==> ReadChans(v, 6, z, n).value == []
    ensures n > 0 ==>
              var k := ChanAt(z, n - 1);
              && k + z <= |v| && ReadChans(v, 6, z, n - 1).Some?
              && ReadChans(v, 6, z, n).value
                   == ReadChans(v, 6, z, n - 1).value + [Chan(v[k], if z == 2 then v[k + 1] else 0)]
  {}

  lemma EncLengths(enc: Encoding)
    requires enc != Unknown
    ensures 1 <= EncLength(enc) <= 2 && ListBytes([], enc) == []
  {}

  /** They are the octets there. */
  lemma {:induction false} ChansAre(v: Bytes, enc: Encoding, n: nat)
    requires enc != Unknown && ChanAt(EncLength(enc), n) <= |v|
    ensures EncLength(enc) >= 1
    ensures var r := ReadChans(v, 6, EncLength(enc), n);
            r.Some? && ListBytes(r.value, enc) == v[6..ChanAt(EncLength(enc), n)]
    decreases n
  {
    hide EncLength, ListBytes, ReadChans, ChanAt;
    EncLengths(enc);
    var z := EncLength(enc);
    ChanAtNext(z, n);
    ChansThere(v, z, n);
    ChansLast(v, z, n);
    if n > 0 {
      ChanAtNext(z, n - 1);
      ChansAre(v, enc, n - 1);
      ChansGrow(v, enc, ReadChans(v, 6, z, n - 1).value, ReadChans(v, 6, z, n).value, ChanAt(z, n - 1));
    }
  }

  lemma ChansGrow(v: Bytes, enc: Encoding, list: seq<Chan>, all: seq<Chan>, k: nat)
    requires enc != Unknown && 6 <= k && k + EncLength(enc) <= |v| && ListBytes(list, enc) == v[6..k]
    requires all == list + [Chan(v[k], if EncLength(enc) == 2 then v[k + 1] else 0)]
    ensures ListBytes(all, enc) == v[6..k + EncLength(enc)]
  {
    hide EncLength, ListBytes, ChanBytes;
    var n := |list|;
    assert all[..n + 1] == all && all[..n] == list;
    ListGrows(all, n, enc);
    OneChan(v, k, enc, all[n]);
    assert v[6..k] + v[k..k + EncLength(enc)] == v[6..k + EncLength(enc)];
  }

  lemma OneChan(v: Bytes, k: nat, enc: Encoding, c: Chan)
    requires k + EncLength(enc) <= |v| && enc != Unknown
    requires c == Chan(v[k], if EncLength(enc) == 2 then v[k + 1] else 0)
    ensures ChanBytes(c, enc) == v[k..k + EncLength(enc)]
  {}

  function EncOf(b: u8): (enc: Encoding) {
    if b == 0 then Simple else if b == 1 then Legacy else if b == 3 then OpClass else Unknown
  }

  lemma EncBytes(enc: Encoding, b: u8)
    ensures enc != Unknown ==> EncOf(EncByte(enc)) == enc && EncSize(EncByte(enc)) == EncLength(enc)
    ensures EncOf(b) != Unknown ==> EncByte(EncOf(b)) == b && EncSize(b) == EncLength(EncOf(b))
    ensures EncOf(b) == Unknown <==> EncSize(b) < 1
  {}

  /** A channel sequence is accepted if and only if some sender writes it, in any of the
      three encodings, and a refused one changes nothing. */
  lemma ChanseqAccepted(p: PeerInfo, n: RxNode, v: Bytes)
    requires n.sync.presenceMode == PRESENCE_MODE
    ensures var r := HandleChanseq(p, n, v);
            && (r.code == RX_OK <==> exists s :: Wrote(s, v))
            && (r.code != RX_OK ==> r.code == -3 && r.peer == p && r.node == n)
  {
    var r := HandleChanseq(p, n, v);
    if r.code == RX_OK { var s := AcceptedWrote(p, n, v); }
    if s :| Wrote(s, v) { WroteAccepted(p, n, v, s); }
  }

  lemma WroteAccepted(p: PeerInfo, n: RxNode, v: Bytes, s: Sender)
    requires n.sync.presenceMode == PRESENCE_MODE && Wrote(s, v)
    ensures HandleChanseq(p, n, v).code == RX_OK
  {
    ChanseqHeader(s);
    var w := ChanseqBytes(s) + [0, 0, 0];
    assert |ChanseqBytes(s)| == 6 + 16 * EncLength(s.enc);
    assert forall i :: 0 <= i < 6 ==> v[i] == w[i];
    hide ChanseqBytes, ListBytes;
    EncBytes(s.enc, 0);
    ChansThere(v, EncLength(s.enc), CHANSEQ_LENGTH);
    hide ReadChans, EncByte, EncSize, EncLength;
  }

  lemma FillOctets(lo: u8, hi: u8)
    requires Shift(hi, lo) == 0xffff
    ensures lo == 0xff && hi == 0xff
  {}

  lemma AcceptedReads(p: PeerInfo, n: RxNode, v: Bytes)
    requires n.sync.presenceMode == PRESENCE_MODE && HandleChanseq(p, n, v).code == RX_OK
    ensures ReadU8(v, 0) == Some(15) && ReadU8(v, 2) == Some(0) && ReadU8(v, 3) == Some(3)
    ensures ReadLe16(v, 4) == Some(0xffff) && ReadU8(v, 1).Some? && EncSize(ReadU8(v, 1).value) >= 1
    ensures ReadChans(v, 6, EncSize(ReadU8(v, 1).value), CHANSEQ_LENGTH).Some?
  {
    hide ReadChans, ReadU8, ReadLe16;
  }

  lemma AcceptedHeader(p: PeerInfo, n: RxNode, v: Bytes)
    requires n.sync.presenceMode == PRESENCE_MODE && HandleChanseq(p, n, v).code == RX_OK
    ensures |v| >= 6 && v[..6] == [15, v[1], 0, 3, 0xff, 0xff] && EncSize(v[1]) >= 1
    ensures ReadChans(v, 6, EncSize(v[1]), CHANSEQ_LENGTH).Some?
  {
    hide ReadChans, EncSize, HandleChanseq, Shift;
    AcceptedReads(p, n, v);
    FillOctets(v[4], v[5]);
  }

  lemma AcceptedWrote(p: PeerInfo, n: RxNode, v: Bytes) returns (s: Sender)
    requires n.sync.presenceMode == PRESENCE_MODE && HandleChanseq(p, n, v).code == RX_OK
    ensures Wrote(s, v)
  {
    hide HandleChanseq, ReadChans, ListBytes;
    AcceptedHeader(p, n, v);
    var enc := EncOf(v[1]);
    EncBytes(enc, v[1]);
    ChansThere(v, EncLength(enc), CHANSEQ_LENGTH);
    ChansAre(v, enc, CHANSEQ_LENGTH);
    var list := ReadChans(v, 6, EncLength(enc), CHANSEQ_LENGTH).value;
    s := Sender(0, [], 0, 0, 0, InitState(0), InitSync(0), enc, list, CHAN_NULL, CHAN_NULL);
    hide EncSize, EncOf, EncByte;
    var end := 6 + 16 * EncLength(enc);
    assert Le16(0xffff) == [0xff, 0xff];
    assert ChanseqBytes(s) == v[..6] + v[6..end];
    assert v[..6] + v[6..end] == v[..end];
  }

  lemma ArpaHandled(p: PeerInfo, n: RxNode, s: Sender)
    requires ValidSender(s)
    ensures HandleArpa(p, n, Arpa(s)) == Handled(RX_OK, p.(name := s.name), n)
  {
    var v := Arpa(s);
    assert v[1] == |s.name|;
    assert v[2..2 + |s.name|] == s.name;
  }

  /** A name of any length is cut to 64 octets. */
  lemma ArpaCut(p: PeerInfo, n: RxNode, flags: u8, name: Bytes, tail: Bytes)
    requires |name| < 256
    ensures HandleArpa(p, n, [flags, |name|] + name + tail)
              == Handled(RX_OK, p.(name := if |name| > 64 then name[..64] else name), n)
  {
    var v := [flags, |name|] + name + tail;
    var m := if |name| > 64 then 64 else |name|;
    assert v[1] == |name|;
    assert v[2..2 + m] == name[..m];
  }

  /** A data path state with any of its optional parts. */
  datatype DataPath = DataPath(
    country: Option<Bytes>, social: Option<u16>, bss: Option<(Addr, u16)>, infra: Option<Addr>, awdl: Option<Addr>)

  function DataPathFlags(d: DataPath): (flags: u16) {
    (if d.country.Some? then 0x100 else 0) + (if d.social.Some? then 0x200 else 0)
    + (if d.bss.Some? then 1 else 0) + (if d.infra.Some? then 2 else 0) + (if d.awdl.Some? then 4 else 0)
  }

  /** The parts in front of the infrastructure address. */
  function DataPathFront(d: DataPath): (b: Bytes) {
    Le16(DataPathFlags(d)) + (if d.country.Some? then d.country.value else [])
    + (if d.social.Some? then Le16(d.social.value) else [])
    + (if d.bss.Some? then AddrBytes(d.bss.value.0) + Le16(d.bss.value.1) else [])
  }

  function DataPathBytes(d: DataPath): (b: Bytes) {
    DataPathFront(d) + (if d.infra.Some? then AddrBytes(d.infra.value) else [])
    + if d.awdl.Some? then AddrBytes(d.awdl.value) else []
  }

  lemma DataPathFlagged(d: DataPath)
    ensures var f := DataPathFlags(d);
            && (Flag(f, 0x100) <==> d.country.Some?) && (Flag(f, 0x200) <==> d.social.Some?)
            && (Flag(f, 1) <==> d.bss.Some?) && (Flag(f, 2) <==> d.infra.Some?) && (Flag(f, 4) <==> d.awdl.Some?)
  {}

  lemma DataPathParts(d: DataPath)
    requires d.country.Some? ==> |d.country.value| == 3
    ensures var v, o := DataPathBytes(d), |DataPathFront(d)|;
            && o == 2 + (if d.country.Some? then 3 else 0) + (if d.social.Some? then 2 else 0)
                    + (if d.bss.Some? then 8 else 0)
            && |v| == o + (if d.infra.Some? then 6 else 0) + (if d.awdl.Some? then 6 else 0)
            && v[0..2] == Le16(DataPathFlags(d)) && (d.country.Some? ==> v[2..5] == d.country.value)
            && (d.infra.Some? ==> v[o..o + 6] == AddrBytes(d.infra.value))
  {
    hide Le16, AddrBytes, DataPathFlags;
  }

  /** Whatever parts are present, the country code and the infrastructure address are
      found behind those in front of them, and nothing else changes. */
  lemma DataPathFound(p: PeerInfo, n: RxNode, d: DataPath)
    requires d.country.Some? ==> |d.country.value| == 3
    ensures HandleDataPath(p, n, DataPathBytes(d)) ==
              Handled(RX_OK, p.(countryCode := if d.country.Some? then d.country.value else p.countryCode,
                                infraAddr := if d.infra.Some? then d.infra else p.infraAddr), n)
  {
    var v, o := DataPathBytes(d), |DataPathFront(d)|;
    DataPathParts(d);
    DataPathFlagged(d);
    hide DataPathBytes, DataPathFront, DataPathFlags, Le16, AddrBytes, Flag;
    Le16At(v, 0, DataPathFlags(d));
    if d.infra.Some? { AddrAt(v, o, d.infra.value); }
    hide ReadLe16, ReadAddr;
  }

  lemma DataPathHandled(p: PeerInfo, n: RxNode, s: Sender)
    ensures HandleDataPath(p, n, DataPathState(s)) == Handled(RX_OK, p.(countryCode := ['X' as nat, '0' as nat, 0]), n)
  {
    var v := DataPathState(s);
    hide AddrBytes;
    assert v[0..2] == Le16(0x8f24);
    Le16At(v, 0, 0x8f24);
    assert v[2..5] == ['X' as nat, '0' as nat, 0];
    assert |v| == 15;
    hide DataPathState, ReadLe16;
  }

  // ----- the whole frame

  lemma AllCons(t: Tlv, rest: seq<Tlv>, p: PeerInfo, n: RxNode, src: Addr, now: u64)
    requires Timed(n.sync) && |p.sequence| == CHANSEQ_LENGTH
    ensures var r := HandleTlv(p, n, src, t, now);
            && Timed(r.node.sync) && |r.peer.sequence| == CHANSEQ_LENGTH
            && (r.code >= 0 ==> HandleAll([t] + rest, p, n, src, now) == HandleAll(rest, r.peer, r.node, src, now))
  {
    hide HandleTlv;
    HandleTlvKeeps(p, n, src, t, now);
    assert ([t] + rest)[1..] == rest;
  }

  /** The record of a peer whose frame has been received: its election state under
      its own address, its channel sequence, version and device class. */
  function Recorded(p: PeerInfo, s: Sender, kind: ActionType): (r: PeerInfo) {
    p.(election := s.election.(self := p.election.self), supportsV2 := true,
       sequence := s.sequence, version := s.version, devclass := s.devClass,
       countryCode := ['X' as nat, '0' as nat, 0],
       name := if kind == Mif then s.name else p.name)
  }

  /** The first five TLVs. */
  lemma FirstTlvs(s: Sender, sent: u64, rest: seq<Tlv>, p: PeerInfo, n: RxNode, src: Addr, now: u64)
    requires ValidSender(s) && EncLength(s.enc) == 2
    requires Timed(n.sync) && n.sync.presenceMode == PRESENCE_MODE && |p.sequence| == CHANSEQ_LENGTH
    ensures var q := p.(election := s.election.(self := p.election.self), supportsV2 := true, sequence := s.sequence);
            var m := Synced(n, src, s, sent, now);
            && Timed(m.sync)
            && HandleAll([Tlv(SYNC_PARAMS_TLV, SyncParams(s, sent))] + ([Tlv(ELECTION_PARAMS_TLV, ElectionParams(s))] +
                 ([Tlv(CHAN_SEQ_TLV, ChanseqBytes(s) + [0, 0, 0])] +
                 ([Tlv(ELECTION_PARAMS_V2_TLV, ElectionParamsV2(s))] +
                 ([Tlv(SERVICE_PARAMS_TLV, SERVICE_PARAMS)] + rest)))), p, n, src, now)
               == HandleAll(rest, q, m, src, now)
  {
    hide HandleAll, HandleSyncParams, HandleElection, HandleChanseq, HandleElectionV2,
         SyncParams, ElectionParams, ChanseqBytes, ElectionParamsV2, Synced, Timed;
    var t5 := [Tlv(SERVICE_PARAMS_TLV, SERVICE_PARAMS)] + rest;
    var t4 := [Tlv(ELECTION_PARAMS_V2_TLV, ElectionParamsV2(s))] + t5;
    var t3 := [Tlv(CHAN_SEQ_TLV, ChanseqBytes(s) + [0, 0, 0])] + t4;
    var t2 := [Tlv(ELECTION_PARAMS_TLV, ElectionParams(s))] + t3;
    SyncHandled(p, n, src, s, sent, now);
    AllCons(Tlv(SYNC_PARAMS_TLV, SyncParams(s, sent)), t2, p, n, src, now);
    SyncedKeeps(n, src, s, sent, now);
    var m := Synced(n, src, s, sent, now);
    ElectionHandled(p, m, s);
    var p2 := HandleElection(p, m, ElectionParams(s)).peer;
    AllCons(Tlv(ELECTION_PARAMS_TLV, ElectionParams(s)), t3, p, m, src, now);
    ChanseqHandled(p2, m, s);
    AllCons(Tlv(CHAN_SEQ_TLV, ChanseqBytes(s) + [0, 0, 0]), t4, p2, m, src, now);
    var p3 := p2.(sequence := s.sequence);
    ElectionV2Handled(p3, m, s);
    AllCons(Tlv(ELECTION_PARAMS_V2_TLV, ElectionParamsV2(s)), t5, p3, m, src, now);
    var p4 := p3.(election := s.election.(self := p3.election.self), supportsV2 := true);
    AllCons(Tlv(SERVICE_PARAMS_TLV, SERVICE_PARAMS), rest, p4, m, src, now);
  }

  lemma SyncedKeeps(n: RxNode, src: Addr, s: Sender, sent: u64, now: u64)
    requires Timed(n.sync) && ValidSender(s)
    ensures Timed(Synced(n, src, s, sent, now).sync)
    ensures Synced(n, src, s, sent, now).sync.presenceMode == n.sync.presenceMode
  {
    hide NextAwTu, CurrentAw, SyncErrorTu;
  }

  /** The TLVs after the service parameters. */
  function LastTlvs(s: Sender, kind: ActionType): (t: seq<Tlv>)
    requires ValidSender(s)
  {
    var end := [Tlv(DATA_PATH_STATE_TLV, DataPathState(s))] + ([Tlv(VERSION_TLV, [s.version, s.devClass])] + []);
    if kind == Mif then [Tlv(HT_CAPABILITIES_TLV, HT_VALUE)] + ([Tlv(ARPA_TLV, Arpa(s))] + end) else end
  }

  lemma LastHandled(s: Sender, kind: ActionType, p: PeerInfo, n: RxNode, src: Addr, now: u64)
    requires ValidSender(s) && Timed(n.sync) && |p.sequence| == CHANSEQ_LENGTH
    ensures HandleAll(LastTlvs(s, kind), p, n, src, now) ==
              Handled(RX_OK, p.(countryCode := ['X' as nat, '0' as nat, 0],
                                version := s.version, devclass := s.devClass,
                                name := if kind == Mif then s.name else p.name), n)
  {
    var none: seq<Tlv> := [];
    assert HandleAll(none, p, n, src, now) == Handled(RX_OK, p, n);
    var v := [Tlv(VERSION_TLV, [s.version, s.devClass])] + none;
    var end := [Tlv(DATA_PATH_STATE_TLV, DataPathState(s))] + v;
    var p2 := if kind == Mif then p.(name := s.name) else p;
    var p3 := p2.(countryCode := ['X' as nat, '0' as nat, 0]);
    var p4 := p3.(version := s.version, devclass := s.devClass);
    assert HandleAll(none, p4, n, src, now) == Handled(RX_OK, p4, n);
    hide HandleAll, HandleArpa, HandleDataPath, DataPathState, Arpa, HT_VALUE, Timed;
    if kind == Mif {
      AllCons(Tlv(HT_CAPABILITIES_TLV, HT_VALUE), [Tlv(ARPA_TLV, Arpa(s))] + end, p, n, src, now);
      ArpaHandled(p, n, s);
      AllCons(Tlv(ARPA_TLV, Arpa(s)), end, p, n, src, now);
    }
    DataPathHandled(p2, n, s);
    AllCons(Tlv(DATA_PATH_STATE_TLV, DataPathState(s)), v, p2, n, src, now);
    AllCons(Tlv(VERSION_TLV, [s.version, s.devClass]), none, p3, n, src, now);
  }

  lemma TlvOrder(s: Sender, kind: ActionType, sent: u64)
    requires ValidSender(s)
    ensures ActionTlvs(s, kind, sent) ==
              [Tlv(SYNC_PARAMS_TLV, SyncParams(s, sent))] + ([Tlv(ELECTION_PARAMS_TLV, ElectionParams(s))] +
                ([Tlv(CHAN_SEQ_TLV, ChanseqBytes(s) + [0, 0, 0])] +
                 ([Tlv(ELECTION_PARAMS_V2_TLV, ElectionParamsV2(s))] +
                ([Tlv(SERVICE_PARAMS_TLV, SERVICE_PARAMS)] + LastTlvs(s, kind)))))
  {
    hide SyncParams, ElectionParams, ChanseqBytes, ElectionParamsV2, DataPathState, Arpa;
  }

  /** Exactly which frames are taken for AWDL action frames; the time stamps and the
      reserved octet are not looked at. */
  lemma HeaderAccepted(b: Bytes, kind: ActionType)
    ensures ParseActionHdr(b) == Some(kind) <==>
              |b| >= 16 && b[..7] == [127, 0x00, 0x17, 0xf2, 8, 0x10, if kind == Mif then 3 else 0]
  {
    if |b| >= 16 {
      assert b[1..4] == [b[1], b[2], b[3]];
      assert b[..7] == [b[0], b[1], b[2], b[3], b[4], b[5], b[6]];
    }
  }

  lemma HeaderParsed(kind: ActionType, now: u64, rest: Bytes)
    ensures ParseActionHdr(ActionHdr(kind, now) + rest) == Some(kind)
    ensures (ActionHdr(kind, now) + rest)[16..] == rest
  {
    hide Le32;
    var b := ActionHdr(kind, now) + rest;
    assert b[1..4] == [0x00, 0x17, 0xf2];
  }

  /** Action frame round trip: the header is recognised, every byte is consumed, and
      whatever the record said before, it then says what the sender is: the very
      election state of the sender, filed under the record's own address. */
  lemma ActionRoundTrip(s: Sender, kind: ActionType, sent: u64, p: PeerInfo, n: RxNode, src: Addr, now: u64)
    requires ValidSender(s) && EncLength(s.enc) == 2
    requires Timed(n.sync) && n.sync.presenceMode == PRESENCE_MODE && |p.sequence| == CHANSEQ_LENGTH
    ensures ParseActionHdr(ActionBody(s, kind, sent)) == Some(kind)
    ensures |ActionBody(s, kind, sent)| >= 16 &&
            ParseTlvs(ActionBody(s, kind, sent)[16..], p, n, src, now)
              == Handled(RX_OK, Recorded(p, s, kind), Synced(n, src, s, sent, now))
    ensures p.election.self == s.election.self ==> Recorded(p, s, kind).election == s.election
  {
    hide HandleAll, ParseTlvs, SyncParams, ElectionParams, ChanseqBytes, ElectionParamsV2, Synced, LastTlvs,
         ActionTlvs, TlvBytes, ActionHdr, Timed, ParseActionHdr;
    var tlvs := ActionTlvs(s, kind, sent);
    ActionTlvsWritable(s, kind, sent);
    HeaderParsed(kind, sent, TlvBytes(tlvs));
    ParseWritten(tlvs, p, n, src, now);
    TlvOrder(s, kind, sent);
    FirstTlvs(s, sent, LastTlvs(s, kind), p, n, src, now);
    var q := p.(election := s.election.(self := p.election.self), supportsV2 := true, sequence := s.sequence);
    LastHandled(s, kind, q, Synced(n, src, s, sent, now), src, now);
  }

  /** A frame of the sync master, sent and received at one instant, sets the
      receiver's clock as one step of the sync tree does. */
  lemma FrameSetsClock(child: SyncTree.Clock, parent: SyncTree.Clock, e: ElectionState, src: Addr, s: Sender, t: int)
    requires Standard(child.sync) && Standard(parent.sync) && ValidSender(s) && s.sync == parent.sync && e.sync == src
    ensures var r := Synced(RxNode(e, child.sync), src, s, SyncTree.Local(parent, t), SyncTree.Local(child, t)).sync;
            var q := SyncTree.SyncTo(child, parent, t).sync;
            r == q.(measTotal := r.measTotal, measErr := r.measErr)
  {
    hide NextAwTu, CurrentAw, SyncErrorTu, SyncTree.Local, TuToUsec;
  }
}
