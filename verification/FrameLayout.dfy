/** What action frames say, octet by octet: the field at each offset of what the
    builders write. */
module FrameLayout {
  import opened Types
  import opened Wire
  import opened Election
  import opened PeerModel
  import opened Sync
  import opened Schedule
  import opened Tx
  import RoundTrip

  /** Kinds and order of the TLVs, as numbers. */
  lemma TlvKinds(s: Sender, kind: ActionType, now: u64)
    requires ValidSender(s)
    ensures var t := ActionTlvs(s, kind, now);
            seq(|t|, i requires 0 <= i < |t| => t[i].kind)
              == if kind == Mif then [4, 5, 18, 24, 6, 7, 16, 12, 21] else [4, 5, 18, 24, 6, 12, 21]
  {
    hide SyncParams, ElectionParams, ElectionParamsV2, ChanseqBytes, DataPathState, Arpa;
    var t := ActionTlvs(s, kind, now);
    assert |t| == if kind == Mif then 9 else 7;
  }

  /** The action header: vendor-specific, OUI, type, version 1.0, subtype, and twice the
      low 32 bits of the time. */
  lemma HeaderLayout(kind: ActionType, now: u64)
    ensures var b := ActionHdr(kind, now);
            && b[..8] == [127, 0x00, 0x17, 0xf2, 8, 0x10, if kind == Mif then 3 else 0, 0]
            && ReadLe32(b, 8) == Some(now % 0x1_0000_0000) && ReadLe32(b, 12) == Some(now % 0x1_0000_0000)
  {
    hide Le32;
    var b := ActionHdr(kind, now);
    assert b[8..12] == Le32(now % POW32);
    Le32At(b, 8, now % POW32);
    assert b[12..16] == Le32(now % POW32);
    Le32At(b, 12, now % POW32);
  }

  lemma SettingsTimes(s: Sender, down: u16)
    ensures var m := SyncSettings(s, down);
            && m[0] == ChanNum(s.master, s.enc) && m[1] == 0
            && m[2..4] == m[8..10] == m[10..12] == Le16(s.sync.awPeriod)
            && m[4..6] == Le16(s.psfInterval) && m[6..8] == Le16(0x1800) && m[12..14] == Le16(Remaining(s.sync, down))
  {
    hide Le16, AddrBytes, Remaining, ChanNum;
  }

  lemma SettingsMaster(s: Sender, down: u16)
    ensures var m := SyncSettings(s, down);
            && m[14..18] == [(s.sync.presenceMode + 255) % 256, (s.sync.presenceMode + 255) % 256,
                             (s.sync.presenceMode + 255) % 256, (s.sync.presenceMode + 255) % 256]
            && m[18..24] == AddrBytes(s.election.master) && m[24] == s.sync.presenceMode && m[25] == 0
  {
    hide Le16, AddrBytes, Remaining, ChanNum;
  }

  /** Where the parts of the synchronisation parameters are. */
  lemma SyncParts(s: Sender, now: u64)
    requires ValidSender(s)
    ensures var v, aw, down := SyncParams(s, now), CurrentAw(now, s.sync), NextAwTu(now, s.sync);
            && |v| >= 35 && v[0] == ChanNum(s.current, s.enc) && v[1..3] == Le16(down)
            && v[3..29] == SyncSettings(s, down) && v[29..31] == Le16(aw) && v[31..33] == Le16(aw)
            && v[33..] == ChanseqBytes(s) + [0, 0]
  {
    hide NextAwTu, CurrentAw, ChanseqBytes, Le16, SyncSettings, ChanNum;
  }

  lemma Le16In(v: Bytes, m: Bytes, off: nat, i: nat, x: u16)
    requires off + |m| <= |v| && v[off..off + |m|] == m && i + 2 <= |m| && m[i..i + 2] == Le16(x)
    ensures ReadLe16(v, off + i) == Some(x)
  {
    assert v[off + i] == v[off..off + |m|][i] && v[off + i + 1] == v[off..off + |m|][i + 1];
    assert v[off + i..off + i + 2] == m[i..i + 2];
    Le16At(v, off + i, x);
  }

  /** Channels and times in the synchronisation parameters. */
  lemma SyncLayoutTimes(s: Sender, now: u64)
    requires ValidSender(s)
    ensures var v, aw, down := SyncParams(s, now), CurrentAw(now, s.sync), NextAwTu(now, s.sync);
            && ReadU8(v, 0) == Some(ChanNum(s.current, s.enc)) && ReadLe16(v, 1) == Some(down)
            && ReadU8(v, 3) == Some(ChanNum(s.master, s.enc)) && ReadU8(v, 4) == Some(0)
            && ReadLe16(v, 5) == Some(s.sync.awPeriod) && ReadLe16(v, 7) == Some(s.psfInterval)
            && ReadLe16(v, 9) == Some(0x1800)
            && ReadLe16(v, 11) == Some(s.sync.awPeriod) && ReadLe16(v, 13) == Some(s.sync.awPeriod)
            && ReadLe16(v, 15) == Some(Remaining(s.sync, down))
            && ReadLe16(v, 29) == Some(aw) && ReadLe16(v, 31) == Some(aw) && v[33..] == ChanseqBytes(s) + [0, 0]
  {
    var v, aw, down := SyncParams(s, now), CurrentAw(now, s.sync), NextAwTu(now, s.sync);
    hide SyncParams, SyncSettings, NextAwTu, CurrentAw, ChanseqBytes, Le16, Remaining, ChanNum, ReadLe16;
    SyncParts(s, now);
    SettingsTimes(s, down);
    var m := SyncSettings(s, down);
    assert v[3] == v[3..29][0] && v[4] == v[3..29][1];
    Le16At(v, 1, down);
    Le16In(v, m, 3, 2, s.sync.awPeriod);
    Le16In(v, m, 3, 4, s.psfInterval);
    Le16In(v, m, 3, 6, 0x1800);
    Le16In(v, m, 3, 8, s.sync.awPeriod);
    Le16In(v, m, 3, 10, s.sync.awPeriod);
    Le16In(v, m, 3, 12, Remaining(s.sync, down));
    Le16At(v, 29, aw);
    Le16At(v, 31, aw);
  }

  /** Extensions, master address and presence mode in the synchronisation parameters. */
  lemma SyncLayoutMaster(s: Sender, now: u64)
    requires ValidSender(s)
    ensures var v, ext := SyncParams(s, now), (s.sync.presenceMode + 255) % 256;
            && |v| >= 35 && v[17..21] == [ext, ext, ext, ext] && ReadAddr(v, 21) == Some(s.election.master)
            && v[27] == s.sync.presenceMode && v[28] == 0
  {
    var v, down := SyncParams(s, now), NextAwTu(now, s.sync);
    hide SyncParams, SyncSettings, NextAwTu, CurrentAw, ChanseqBytes, Le16, AddrBytes, ChanNum;
    SyncParts(s, now);
    SettingsMaster(s, down);
    var m := SyncSettings(s, down);
    assert v[17..21] == m[14..18] && v[21..27] == m[18..24] && v[27] == m[24] && v[28] == m[25];
    AddrAt(v, 21, s.election.master);
  }

  /** The rest of the first AW of the window: 16 time units less those elapsed. */
  lemma SyncLayoutRemaining(s: Sender, now: u64)
    requires ValidSender(s) && Standard(s.sync)
    ensures var e := (now - Epoch(s.sync)) / 1024 % 64;
            ReadLe16(SyncParams(s, now), 15) == Some(if e < 16 then 16 - e else 0)
  {
    SyncLayoutTimes(s, now);
    WindowsAreFloors(now, s.sync);
    RemainingIs(s.sync, NextAwTu(now, s.sync));
    hide NextAwTu, CurrentAw, CurrentEaw, NextAwUs, SyncParams, Epoch, ReadLe16, Remaining;
  }

  lemma RemainingIs(s: SyncState, down: u16)
    requires Standard(s) && 1 <= down <= 64
    ensures Remaining(s, down) == if down > 48 then down - 48 else 0
  {
    assert EawPeriod(s) == 64;
  }

  /** The channel sequence: header with the number of the encoding, then the entries. */
  lemma ChanseqLayout(s: Sender, i: nat)
    requires |s.sequence| == 16 && i < 16 && EncLength(s.enc) == 2
    ensures var b := ChanseqBytes(s);
            && |b| == 38 && b[..6] == [15, if s.enc == Legacy then 1 else 3, 0, 3, 0xff, 0xff]
            && b[6 + 2 * i] == s.sequence[i].b0 && b[7 + 2 * i] == s.sequence[i].b1
  {
    RoundTrip.ListAt(s.sequence, s.enc, i);
    hide ListBytes;
    var b, list := ChanseqBytes(s), ListBytes(s.sequence, s.enc);
    assert b[6 + 2 * i] == list[2 * i] && b[7 + 2 * i] == list[2 * i + 1];
  }

  /** The fields of the election TLVs; whatever is not a field is zero. */
  lemma ElectionLayout(s: Sender)
    ensures var v, e := ElectionParams(s), s.election;
            && v[..3] == [0, 0, 0] && v[4] == 0 && v[19..] == [0, 0]
            && v[3] == e.height % 256 && ReadAddr(v, 5) == Some(e.master)
            && ReadLe32(v, 11) == Some(e.masterMetric) && ReadLe32(v, 15) == Some(e.selfMetric)
  {
    var v, e := ElectionParams(s), s.election;
    hide AddrBytes, Le32;
    assert v[5..11] == AddrBytes(e.master);
    AddrAt(v, 5, e.master);
    assert v[11..15] == Le32(e.masterMetric);
    Le32At(v, 11, e.masterMetric);
    assert v[15..19] == Le32(e.selfMetric);
    Le32At(v, 15, e.selfMetric);
  }

  /** Between the metrics and the node's own counter. */
  lemma ElectionV2Reserved(s: Sender)
    ensures ElectionParamsV2(s)[28..36] == [0, 0, 0, 0, 0, 0, 0, 0]
  {
    hide AddrBytes, Le32;
    ZeroOctets();
  }

  lemma ZeroOctets()
    ensures Le32(0) == [0, 0, 0, 0]
  {}

  /** Flags, country code, social channels, own address and extended flags. */
  lemma DataPathLayout(s: Sender)
    ensures var v := DataPathState(s);
            && ReadLe16(v, 0) == Some(0x8f24) && v[2..5] == ['X' as nat, '0' as nat, 0]
            && ReadLe16(v, 5) == Some(if s.master.b0 == 6 then 1 else if s.master.b0 == 44 then 2 else 4)
            && ReadAddr(v, 7) == Some(s.self) && ReadLe16(v, 13) == Some(0)
  {
    var v := DataPathState(s);
    hide AddrBytes, Le16;
    assert v[0..2] == Le16(0x8f24);
    Le16At(v, 0, 0x8f24);
    assert v[5..7] == Le16(SocialChannels(s.master));
    Le16At(v, 5, SocialChannels(s.master));
    assert v[7..13] == AddrBytes(s.self);
    AddrAt(v, 7, s.self);
    assert v[13..15] == Le16(0);
    Le16At(v, 13, 0);
  }

  /** Service and capability parameters never change; the name is followed by ".local". */
  lemma FixedLayout(s: Sender, kind: ActionType, now: u64)
    requires ValidSender(s)
    ensures ActionTlvs(s, kind, now)[4] == Tlv(6, [0, 0, 0, 0, 0, 0, 0, 0, 0])
    ensures kind == Mif ==> ActionTlvs(s, kind, now)[5] == Tlv(7, [0, 0, 0xce, 0x11, 0x1b, 0xff, 0, 0])
    ensures kind == Mif ==> ActionTlvs(s, kind, now)[6] == Tlv(16, [3, |s.name|] + s.name + [0xc0, 0x0c])
    ensures ActionTlvs(s, kind, now)[if kind == Mif then 8 else 6] == Tlv(21, [s.version, s.devClass])
  {
    hide SyncParams, ElectionParams, ElectionParamsV2, ChanseqBytes, DataPathState;
  }
}
