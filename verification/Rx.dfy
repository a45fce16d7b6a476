/** Parsing received action frames into peer records. */
module Rx {
  import opened Types
  import opened Wire
  import opened Election
  import opened PeerModel
  import opened HashSpec
  import opened HashMaps
  import opened Peers
  import opened Sync
  import opened Tx

  const RX_IGNORE_PEER: int := 6
  const RX_IGNORE_RSSI: int := 5
  const RX_IGNORE: int := 1
  const RX_OK: int := 0
  const RX_UNEXPECTED_FORMAT: int := -1
  const RX_UNEXPECTED_VALUE: int := -3
  const RX_TOO_SHORT: int := -3

  const SYNC_THRESHOLD: int := 3

  /** The receiver's own state that TLVs can read or change. */
  datatype RxNode = RxNode(election: ElectionState, sync: SyncState)

  /** Result code, peer record and own state after handling a TLV. */
  datatype Handled = Handled(code: int, peer: PeerInfo, node: RxNode)

  /** Counts the measurement and takes over the advertised window position. */
  function TakeOver(s: SyncState, timeToNextAw: u16, awCounter: u16, now: u64): (r: SyncState)
    requires Timed(s)
  {
    var error := SyncErrorTu(now, timeToNextAw, awCounter, s);
    var off := error > SYNC_THRESHOLD || error < -SYNC_THRESHOLD;
    UpdateLast(now, timeToNextAw, awCounter,
               s.(measTotal := (s.measTotal + 1) % POW64,
                  measErr := if off then (s.measErr + 1) % POW64 else s.measErr))
  }

  function HandleSyncParams(p: PeerInfo, n: RxNode, src: Addr, val: Bytes, now: u64): (r: Handled)
    requires Timed(n.sync)
  {
    if !IsSyncMaster(n.election, src) then Handled(RX_IGNORE, p, n)
    else match (ReadLe16(val, 1), ReadLe16(val, 29))
      case (Some(tu), Some(aw)) => Handled(RX_OK, p, n.(sync := TakeOver(n.sync, tu, aw, now)))
      case _ => Handled(RX_TOO_SHORT, p, n)
  }

  function EncSize(enc: u8): (n: int) { if enc == 0 then 1 else if enc == 1 || enc == 3 then 2 else -1 }

  /** n channel entries of the given size; an octet the encoding does not carry is 0 here. */
  function ReadChans(val: Bytes, off: nat, size: nat, n: nat): (r: Option<seq<Chan>>)
    requires 1 <= size <= 2
    ensures r.Some? ==> |r.value| == n
    decreases n
  {
    if n == 0 then Some([])
    else match (ReadChans(val, off, size, n - 1), ReadBytes(val, off + (n - 1) * size, size))
      case (Some(list), Some(b)) => Some(list + [Chan(b[0], if size == 2 then b[1] else 0)])
      case _ => None
  }

  function HandleChanseq(p: PeerInfo, n: RxNode, val: Bytes): (r: Handled) {
    match (ReadU8(val, 0), ReadU8(val, 2), ReadU8(val, 3), ReadLe16(val, 4), ReadU8(val, 1))
    case (Some(count), Some(dup), Some(step), Some(fill), Some(enc)) =>
      if count != CHANSEQ_LENGTH - 1 || dup > 0 || step as int + 1 != n.sync.presenceMode || fill != 0xffff
         || EncSize(enc) < 1
      then Handled(RX_UNEXPECTED_VALUE, p, n)
      else (match ReadChans(val, 6, EncSize(enc), CHANSEQ_LENGTH)
            case None => Handled(RX_TOO_SHORT, p, n)
            case Some(list) => Handled(RX_OK, p.(sequence := list), n))
    case _ => Handled(RX_TOO_SHORT, p, n)
  }

  /** Fields are stored one by one, so a short value leaves the first ones changed. */
  function HandleElection(p: PeerInfo, n: RxNode, val: Bytes): (r: Handled) {
    if p.supportsV2 then Handled(RX_OK, p, n)
    else match ReadU8(val, 3)
      case None => Handled(RX_TOO_SHORT, p, n)
      case Some(height) =>
        var e := p.election.(height := height);
        match ReadAddr(val, 5)
        case None => Handled(RX_TOO_SHORT, p.(election := e), n)
        case Some(master) =>
          var e := e.(master := master);
          match ReadLe32(val, 11)
          case None => Handled(RX_TOO_SHORT, p.(election := e), n)
          case Some(metric) =>
            var e := e.(masterMetric := metric);
            match ReadLe32(val, 15)
            case None => Handled(RX_TOO_SHORT, p.(election := e), n)
            case Some(own) => Handled(RX_OK, p.(election := e.(selfMetric := own)), n)
  }

  function HandleElectionV2(p: PeerInfo, n: RxNode, val: Bytes): (r: Handled) {
    match (ReadLe32(val, 16), ReadAddr(val, 0), ReadAddr(val, 6), ReadLe32(val, 12))
    case (Some(height), Some(master), Some(sync), Some(counter)) =>
      var e := p.election.(height := height, master := master, sync := sync, masterCounter := counter);
      (match ReadLe32(val, 20)
       case None => Handled(RX_TOO_SHORT, p.(election := e), n)
       case Some(metric) =>
         var e := e.(masterMetric := metric);
         match ReadLe32(val, 24)
         case None => Handled(RX_TOO_SHORT, p.(election := e), n)
         case Some(own) =>
           var e := e.(selfMetric := own);
           match ReadLe32(val, 36)
           case None => Handled(RX_TOO_SHORT, p.(election := e), n)
           case Some(c) => Handled(RX_OK, p.(election := e.(selfCounter := c), supportsV2 := true), n))
    case _ => Handled(RX_TOO_SHORT, p, n)
  }

  function HandleArpa(p: PeerInfo, n: RxNode, val: Bytes): (r: Handled) {
    match ReadIntString(val, 1, HOST_NAME_LENGTH_MAX)
    case None => Handled(RX_TOO_SHORT, p, n)
    case Some(name) => Handled(RX_OK, p.(name := name), n)
  }

  predicate Flag(flags: u16, bit: u16)
    requires bit > 0
  {
    flags / bit % 2 == 1
  }

  function HandleDataPath(p: PeerInfo, n: RxNode, val: Bytes): (r: Handled) {
    match ReadLe16(val, 0)
    case None => Handled(RX_TOO_SHORT, p, n)
    case Some(flags) =>
      var country, social := Flag(flags, 0x100), Flag(flags, 0x200);
      var infra, infraAddr, awdl := Flag(flags, 1), Flag(flags, 2), Flag(flags, 4);
      if country && !InBounds(val, 2, 3) then Handled(RX_TOO_SHORT, p, n)
      else
        var p := if country then p.(countryCode := val[2..5]) else p;
        var o1 := if country then 5 else 2;
        var o2 := if social then o1 + 2 else o1;
        var o3 := if infra then o2 + 8 else o2;
        var o4 := if infraAddr then o3 + 6 else o3;
        if !InBounds(val, 0, o3) then Handled(RX_TOO_SHORT, p, n)
        else if infraAddr && !InBounds(val, o3, 6) then Handled(RX_TOO_SHORT, p, n)
        else
          var p := if infraAddr then p.(infraAddr := ReadAddr(val, o3)) else p;
          if awdl && !InBounds(val, o4, 6) then Handled(RX_TOO_SHORT, p, n) else Handled(RX_OK, p, n)
  }

  function HandleVersion(p: PeerInfo, n: RxNode, val: Bytes): (r: Handled) {
    match (ReadU8(val, 0), ReadU8(val, 1))
    case (Some(version), Some(devclass)) => Handled(RX_OK, p.(version := version, devclass := devclass), n)
    case _ => Handled(RX_TOO_SHORT, p, n)
  }

  function HandleTlv(p: PeerInfo, n: RxNode, src: Addr, t: Tlv, now: u64): (r: Handled)
    requires Timed(n.sync)
  {
    if t.kind == SYNC_PARAMS_TLV then HandleSyncParams(p, n, src, t.value, now)
    else if t.kind == CHAN_SEQ_TLV then HandleChanseq(p, n, t.value)
    else if t.kind == ELECTION_PARAMS_TLV then HandleElection(p, n, t.value)
    else if t.kind == ELECTION_PARAMS_V2_TLV then HandleElectionV2(p, n, t.value)
    else if t.kind == ARPA_TLV then HandleArpa(p, n, t.value)
    else if t.kind == DATA_PATH_STATE_TLV then HandleDataPath(p, n, t.value)
    else if t.kind == VERSION_TLV then HandleVersion(p, n, t.value)
    else Handled(RX_IGNORE, p, n)
  }

  /** A TLV changes neither the identity nor the validity of the record, nor the
      receiver's window lengths or election state. */
  ghost predicate Kept(p: PeerInfo, n: RxNode, r: Handled) {
    && r.peer.election.self == p.election.self && |r.peer.sequence| == |p.sequence| && r.peer.syncOffset == p.syncOffset
    && r.peer.isValid == p.isValid && r.peer.lastUpdate == p.lastUpdate && r.peer.sentMif == p.sentMif
    && r.node.election == n.election && r.node.sync.awPeriod == n.sync.awPeriod
    && r.node.sync.presenceMode == n.sync.presenceMode
    && (n.sync.awCounter % 4 == 0 ==> r.node.sync.awCounter % 4 == 0)
  }

  lemma SyncParamsKeeps(p: PeerInfo, n: RxNode, src: Addr, val: Bytes, now: u64)
    requires Timed(n.sync)
    ensures Kept(p, n, HandleSyncParams(p, n, src, val, now))
  {
    hide ReadLe16, SyncErrorTu;
  }

  lemma ElectionKeeps(p: PeerInfo, n: RxNode, val: Bytes)
    ensures Kept(p, n, HandleElection(p, n, val)) && Kept(p, n, HandleElectionV2(p, n, val))
  {
    hide ReadU8, ReadLe32, ReadAddr;
  }

  lemma DataPathKeeps(p: PeerInfo, n: RxNode, val: Bytes)
    ensures Kept(p, n, HandleDataPath(p, n, val))
  {
    hide ReadAddr, ReadLe16, Flag;
  }

  lemma HandleTlvKeeps(p: PeerInfo, n: RxNode, src: Addr, t: Tlv, now: u64)
    requires Timed(n.sync) && |p.sequence| == CHANSEQ_LENGTH
    ensures Kept(p, n, HandleTlv(p, n, src, t, now))
  {
    hide HandleSyncParams, HandleElection, HandleElectionV2, HandleDataPath, ReadU8, ReadLe16, ReadBytes, ReadIntString;
    SyncParamsKeeps(p, n, src, t.value, now);
    ElectionKeeps(p, n, t.value);
    DataPathKeeps(p, n, t.value);
  }

  /** Handles all TLVs at the front of the buffer. The code is negative if one fails
      or if bytes that are no TLV remain. */
  function ParseTlvs(b: Bytes, p: PeerInfo, n: RxNode, src: Addr, now: u64): (r: Handled)
    requires Timed(n.sync) && |p.sequence| == CHANSEQ_LENGTH
    ensures Kept(p, n, r) && (r.code == RX_OK || r.code == RX_UNEXPECTED_FORMAT)
    decreases |b|
  {
    match ReadTlv(b, 0)
    case None => Handled(if |b| > 0 then RX_UNEXPECTED_FORMAT else RX_OK, p, n)
    case Some(t) =>
      hide HandleTlv;
      HandleTlvKeeps(p, n, src, t, now);
      var r := HandleTlv(p, n, src, t, now);
      if r.code < 0 then r.(code := RX_UNEXPECTED_FORMAT)
      else ParseTlvs(b[3 + |t.value|..], r.peer, r.node, src, now)
  }

  /** Subtype of an AWDL action frame. */
  function ParseActionHdr(b: Bytes): (r: Option<ActionType>) {
    if InBounds(b, 0, 16) && b[0] == 127 && b[1..4] == [0x00, 0x17, 0xf2] && b[4] == 8 && b[5] == 0x10 then
      if b[6] == 0 then Some(Psf) else if b[6] == 3 then Some(Mif) else None
    else None
  }

  /** The effect of parsed TLVs on a table that already has src. */
  ghost function Updated(t: Table, src: Addr, now: u64, kind: ActionType, r: Handled): (q: Table) {
    if r.code < 0 then t.(peers := t.peers[src := r.peer])
    else
      var p := if kind == Mif then r.peer.(sentMif := true) else r.peer;
      DoAdd(t.(peers := t.peers[src := p]), src, now)
  }

  /** In a table t that has src, the TLVs are parsed in order and the record refreshed
      once more; this gives the code, the receiver's clock s' and the table t'. */
  ghost predicate Parsed(t: Table, e: ElectionState, s: SyncState, body: Bytes, kind: ActionType, src: Addr, now: u64,
                         code: int, s': SyncState, t': Table)
  {
    Timed(s) && src in t.peers && |t.peers[src].sequence| == CHANSEQ_LENGTH &&
    var r := ParseTlvs(body, t.peers[src], RxNode(e, s), src, now);
    code == r.code && s' == r.node.sync && t' == Updated(t, src, now, kind, r)
  }

  /** One TLV at a time. */
  lemma ParseStep(b: Bytes, p: PeerInfo, n: RxNode, src: Addr, now: u64)
    requires Timed(n.sync) && |p.sequence| == CHANSEQ_LENGTH
    ensures var t := ReadTlv(b, 0); var target := ParseTlvs(b, p, n, src, now);
            if t.None? then target == Handled(if |b| > 0 then RX_UNEXPECTED_FORMAT else RX_OK, p, n)
            else
              3 + |t.value.value| <= |b| &&
              var r := HandleTlv(p, n, src, t.value, now);
              && Kept(p, n, r)
              && target == if r.code < 0 then r.(code := RX_UNEXPECTED_FORMAT)
                           else ParseTlvs(b[3 + |t.value.value|..], r.peer, r.node, src, now)
  {
    hide HandleTlv, ReadTlv;
    if ReadTlv(b, 0).Some? { HandleTlvKeeps(p, n, src, ReadTlv(b, 0).value, now); }
  }

  /** What the receiver does to an action frame, as a whole. */
  class Receiver {
    const table: PeerTable
    var election: ElectionState
    var sync: SyncState
    var rxAction: nat
    const filterRssi: bool
    const rssiThreshold: int
    const rssiGrace: int

    ghost predicate Valid()
      reads this, table, table.index, table.index.table, table.index.contents.Values
    {
      table.Valid() && Standard(sync)
    }

    constructor (self: Addr, now: u64, hash: Addr -> nat, cap: nat, grant: nat -> bool, filterRssi: bool)
      requires INITIAL_SIZE <= cap
      ensures Valid() && fresh(table) && fresh(table.index) && fresh(table.index.table)
      ensures table.model == Table(map[], []) && election == InitState(self) && sync == InitSync(now)
      ensures this.filterRssi == filterRssi && rssiThreshold == -65 && rssiGrace == -5
    {
      table := new PeerTable(hash, cap, grant);
      election, sync, rxAction := InitState(self), InitSync(now), 0;
      this.filterRssi, rssiThreshold, rssiGrace := filterRssi, -65, -5;
    }

    /** The peer object is the one the table files under its address, as the value
        table shows it. */
    ghost predicate Knows(peer: Peer)
      reads this, table, table.index, peer
    {
      && peer.addr in table.index.contents && table.index.contents[peer.addr] == peer
      && peer.addr in table.model.peers && table.model.peers[peer.addr] == peer.info && Filed(peer.addr, peer.info)
    }

    /** Handles one TLV and stores what it says. */
    method HandleOne(peer: Peer, t: Tlv, now: u64) returns (code: int)
      requires Valid() && Knows(peer)
      modifies this`sync, table`model, peer
      ensures Valid() && Knows(peer)
      ensures var r := HandleTlv(old(peer.info), RxNode(election, old(sync)), peer.addr, t, now);
              code == r.code && peer.info == r.peer && sync == r.node.sync && RxNode(election, sync) == r.node
      ensures table.model == old(table.model).(peers := old(table.model).peers[peer.addr := peer.info])
    {
      hide Represents, InChain, HandleTlv, ValidTable, PeerTable.Linked;
      HandleTlvKeeps(peer.info, RxNode(election, sync), peer.addr, t, now);
      var r := HandleTlv(peer.info, RxNode(election, sync), peer.addr, t, now);
      table.Write(peer, r.peer);
      sync := r.node.sync;
      code := r.code;
    }

    /** Handles the TLVs of a frame one after the other. */
    method HandleTlvs(frame: Buf, peer: Peer, now: u64) returns (code: int)
      requires Valid() && frame.Valid() && Knows(peer)
      modifies this`sync, table`model, peer, frame
      ensures Valid() && Knows(peer)
      ensures var r := ParseTlvs(old(frame.Contents()), old(peer.info), RxNode(election, old(sync)), peer.addr, now);
              code == r.code && peer.info == r.peer && sync == r.node.sync
      ensures table.model == old(table.model).(peers := old(table.model).peers[peer.addr := peer.info])
    {
      hide Represents, InChain, HandleTlv, ReadTlv, ParseTlvs, ValidTable, PeerTable.Linked;
      ghost var target := ParseTlvs(frame.Contents(), peer.info, RxNode(election, sync), peer.addr, now);
      while true
        invariant Valid() && frame.Valid() && Knows(peer)
        invariant ParseTlvs(frame.Contents(), peer.info, RxNode(election, sync), peer.addr, now) == target
        invariant table.model == old(table.model).(peers := old(table.model).peers[peer.addr := peer.info])
        decreases frame.len
      {
        var t := ReadTlv(frame.Contents(), 0);
        ParseStep(frame.Contents(), peer.info, RxNode(election, sync), peer.addr, now);
        if t.None? { break; }
        code := HandleOne(peer, t.value, now);
        if code < 0 { return RX_UNEXPECTED_FORMAT; }
        var _ := frame.Strip(3 + |t.value.value|);
      }
      code := if frame.len > 0 then RX_UNEXPECTED_FORMAT else RX_OK;
    }

    /** Parses a frame of a known peer and updates its record. */
    method Update(frame: Buf, kind: ActionType, src: Addr, now: u64) returns (code: int)
      requires Valid() && frame.Valid() && src in table.model.peers
      modifies this`sync, table, table.index, table.index.table, table.index.contents.Values, frame
      ensures Valid() && (code == RX_OK || code == RX_UNEXPECTED_FORMAT)
      ensures Parsed(old(table.model), election, old(sync), old(frame.Contents()), kind, src, now,
                     code, sync, table.model)
    {
      hide Represents, InChain, Filed, ParseTlvs, DoAdd;
      var peer := table.Get(src);
      assert table.Linked(src);
      FiledSequence(src, peer.info);
      hide ValidTable, PeerTable.Linked;
      code := HandleTlvs(frame, peer, now);
      if code < 0 { return; }
      ghost var t, p := old(table.model), peer.info;
      Finish(peer, kind, now);
      assert t.peers[src := p][src := p.(sentMif := true)] == t.peers[src := p.(sentMif := true)];
    }

    /** Remembers a MIF and refreshes the record once more. */
    method Finish(peer: Peer, kind: ActionType, now: u64)
      requires Valid() && Knows(peer)
      modifies table, table.index, table.index.table, table.index.contents.Values
      ensures Valid()
      ensures table.model ==
                var t, p := old(table.model), old(peer.info);
                DoAdd(if kind == Mif then t.(peers := t.peers[peer.addr := p.(sentMif := true)]) else t, peer.addr, now)
    {
      hide Represents, InChain, Filed, DoAdd, ValidTable, PeerTable.Linked;
      if kind == Mif {
        MifKeepsFiled(peer.addr, peer.info);
        table.Write(peer, peer.info.(sentMif := true));
      }
      var status := table.Add(peer.addr, now);
    }

    /** Files or refreshes src and updates its record from the frame. A new peer is
        ignored only for want of memory in a table that has no room for it. */
    method Accept(frame: Buf, kind: ActionType, src: Addr, now: u64) returns (code: int)
      requires Valid() && frame.Valid()
      modifies this`sync, table, table.index, table.index.table, table.index.contents.Values, frame
      ensures Valid()
      ensures code == RX_IGNORE ==>
                && table.Declined(src, old(table.model), old(table.index.Now()), old(table.index.used))
                && sync == old(sync)
      ensures code != RX_IGNORE ==>
                Parsed(DoAdd(old(table.model), src, now), election, old(sync), old(frame.Contents()), kind, src, now,
                       code, sync, table.model)
    {
      hide Represents, InChain, Filed, Parsed, DoAdd, ValidTable, PeerTable.Linked, PeerTable.Declined;
      AddedIsThere(table.model, src, now);
      var status := table.Add(src, now);
      if status == PeersInternal { return RX_IGNORE; }
      code := Update(frame, kind, src, now);
    }

    /** Receives the body of an action frame from src at time now. The record just
        added is always found again: the source's failure branch for that is dead. */
    method RxAction(frame: Buf, rssi: int, src: Addr, now: u64) returns (code: int)
      requires Valid() && frame.Valid()
      modifies this, table, table.index, table.index.table, table.index.contents.Values, frame
      ensures Valid() && election == old(election)
      ensures var body := old(frame.Contents()); var kind := ParseActionHdr(body);
              var known := src in old(table.model).peers;
              if kind.None? then code == RX_IGNORE && table.model == old(table.model) && sync == old(sync)
              else if filterRssi && rssi < (if known then rssiThreshold + rssiGrace else rssiThreshold)
              then code == RX_IGNORE_RSSI && table.model == old(table.model) && sync == old(sync)
              else if code == RX_IGNORE then
                && table.Declined(src, old(table.model), old(table.index.Now()), old(table.index.used))
                && sync == old(sync)
              else Parsed(DoAdd(old(table.model), src, now), election, old(sync), body[16..], kind.value, src, now,
                          code, sync, table.model)
    {
      hide Represents, InChain, Filed, Parsed, DoAdd, ValidTable;
      hide PeerTable.Linked, PeerTable.Declined;
      var kind := ParseActionHdr(frame.Contents());
      if kind.None? { return RX_IGNORE; }
      var _ := frame.Strip(16);
      if filterRssi {
        var known := table.Get(src);
        if rssi < (if known != null then rssiThreshold + rssiGrace else rssiThreshold) { return RX_IGNORE_RSSI; }
      }
      rxAction := rxAction + 1;
      code := Accept(frame, kind.value, src, now);
    }
  }

  lemma AddedIsThere(t: Table, src: Addr, now: u64)
    ensures src in DoAdd(t, src, now).peers
  {}

  lemma FiledSequence(addr: Addr, p: PeerInfo)
    requires Filed(addr, p)
    ensures |p.sequence| == CHANSEQ_LENGTH
  {}

  lemma MifKeepsFiled(addr: Addr, p: PeerInfo)
    requires Filed(addr, p)
    ensures Filed(addr, p.(sentMif := true))
  {}
}
