/** The peer table as a value: its records, the neighbour callbacks made so far,
    and the steps that change them. */
module PeerModel {
  import opened Types
  import opened Election

  const CHANSEQ_LENGTH: nat := 16
  const HOST_NAME_LENGTH_MAX: nat := 64

  /** One channel entry: two octets whose meaning depends on the encoding. */
  datatype Chan = Chan(b0: u8, b1: u8)

  const CHAN_NULL: Chan := Chan(0, 0)

  datatype PeerInfo = PeerInfo(
    lastUpdate: u64,
    election: ElectionState,
    sequence: seq<Chan>,
    syncOffset: u64,
    name: seq<u8>,
    countryCode: seq<u8>,
    infraAddr: Option<Addr>,
    version: u8,
    devclass: u8,
    supportsV2: bool,
    sentMif: bool,
    isValid: bool)

  function NewPeer(addr: Addr): (p: PeerInfo) {
    PeerInfo(0, InitState(addr), seq(CHANSEQ_LENGTH, _ => CHAN_NULL), 0, [], ['N' as nat, 'A' as nat], None, 0, 0,
             false, false, false)
  }

  /** Whether a peer has told enough about itself to be used. */
  predicate Complete(p: PeerInfo) { p.sentMif && p.devclass != 0 && p.version != 0 }

  /** What the record keeps about itself whatever frames arrive. */
  ghost predicate Filed(addr: Addr, p: PeerInfo) {
    p.election.self == addr && |p.sequence| == CHANSEQ_LENGTH && p.syncOffset == 0
  }

  /** A call of the add or remove callback. */
  datatype Event = Added(addr: Addr) | Removed(addr: Addr)

  datatype Table = Table(peers: map<Addr, PeerInfo>, log: seq<Event>)

  ghost predicate ValidTable(t: Table) { forall a :: a in t.peers ==> Filed(a, t.peers[a]) }

  function Touched(p: PeerInfo, now: u64): (q: PeerInfo) {
    p.(lastUpdate := now, isValid := p.isValid || Complete(p))
  }

  /** A frame from addr arrives at `now`. */
  function DoAdd(t: Table, addr: Addr, now: u64): (r: Table) {
    var p := if addr in t.peers then t.peers[addr] else NewPeer(addr);
    Table(t.peers[addr := Touched(p, now)],
          if !p.isValid && Complete(p) then t.log + [Added(addr)] else t.log)
  }

  /** A record that has become complete turns valid and is reported. */
  function DoMark(t: Table, addr: Addr): (r: Table)
    requires addr in t.peers
  {
    var p := t.peers[addr];
    if !p.isValid && Complete(p)
    then Table(t.peers[addr := p.(isValid := true)], t.log + [Added(addr)])
    else t
  }

  lemma AddIsTouchThenMark(t: Table, addr: Addr, now: u64)
    ensures var p := if addr in t.peers then t.peers[addr] else NewPeer(addr);
            DoAdd(t, addr, now) == DoMark(Table(t.peers[addr := p.(lastUpdate := now)], t.log), addr)
  {
    hide NewPeer;
    var p := if addr in t.peers then t.peers[addr] else NewPeer(addr);
    var q := p.(lastUpdate := now);
    assert t.peers[addr := q][addr := q.(isValid := true)] == t.peers[addr := q.(isValid := true)];
  }

  /** TLVs of that frame change the record, but never its validity. */
  ghost predicate DoUpdate(t: Table, addr: Addr, r: Table) {
    && addr in t.peers && addr in r.peers && r.log == t.log
    && r.peers == t.peers[addr := r.peers[addr]]
    && r.peers[addr].isValid == t.peers[addr].isValid && r.peers[addr].lastUpdate == t.peers[addr].lastUpdate
    && Filed(addr, r.peers[addr])
  }

  function DoRemove(t: Table, addr: Addr): (r: Table) {
    Table(t.peers - {addr}, if addr in t.peers && t.peers[addr].isValid then t.log + [Removed(addr)] else t.log)
  }

  ghost predicate Expires(t: Table, before: u64, a: Addr) { a in t.peers && t.peers[a].lastUpdate < before }

  function RemovedAll(gone: seq<Addr>): (log: seq<Event>) {
    seq(|gone|, i requires 0 <= i < |gone| => Removed(gone[i]))
  }

  ghost predicate Distinct(s: seq<Addr>) { forall i, j :: 0 <= i < j < |s| ==> s[i] != s[j] }

  /** gone lists each valid expired peer once. */
  ghost predicate Reports(t: Table, before: u64, gone: seq<Addr>) {
    Distinct(gone) && forall a: Addr :: a in gone <==> Expires(t, before, a) && t.peers[a].isValid
  }

  /** All peers not heard since `before` go, in some order. */
  ghost predicate DoExpire(t: Table, before: u64, r: Table) {
    && r.peers == (map a | a in t.peers && !Expires(t, before, a) :: t.peers[a])
    && exists gone :: Reports(t, before, gone) && r.log == t.log + RemovedAll(gone)
  }

  /** Memory runs out while the table grows for a new peer: only the records in
      `kept` remain, and nothing is reported. */
  ghost function DoFail(t: Table, kept: set<Addr>): (r: Table) {
    t.(peers := map a | a in t.peers && a in kept :: t.peers[a])
  }

  datatype Step =
    Add(addr: Addr, now: u64) | Update(addr: Addr) | Remove(addr: Addr) | Expire(before: u64) | Fail(kept: set<Addr>)

  ghost predicate Next(t: Table, step: Step, r: Table) {
    match step
    case Add(addr, now) => r == DoAdd(t, addr, now)
    case Update(addr) => DoUpdate(t, addr, r)
    case Remove(addr) => r == DoRemove(t, addr)
    case Expire(before) => DoExpire(t, before, r)
    case Fail(kept) => r == DoFail(t, kept)
  }

  /** The step loses no valid peer without a report. */
  ghost predicate Sparing(t: Table, step: Step) { step.Fail? ==> ValidPeers(t) <= step.kept }

  /** A peer heard at `now` survives every later expiry that reaches back no further,
      and one last heard before the cut-off does not. */
  lemma HeardPeerSurvives(t: Table, addr: Addr, now: u64, before: u64, r: Table)
    requires DoExpire(DoAdd(t, addr, now), before, r)
    ensures addr in r.peers <==> before <= now
    ensures addr in r.peers ==> r.peers[addr].lastUpdate == now
  {
    hide NewPeer;
  }

  // ----- neighbour mirroring

  /** The addresses reported as added and not yet as removed. */
  ghost function Active(log: seq<Event>): (s: set<Addr>) {
    if log == [] then {}
    else
      var before := Active(log[..|log| - 1]);
      match log[|log| - 1]
      case Added(a) => before + {a}
      case Removed(a) => before - {a}
  }

  /** Reports for each address alternate, starting with an add. */
  ghost predicate Alternates(log: seq<Event>) {
    log == [] ||
    var init := log[..|log| - 1];
    Alternates(init) &&
    match log[|log| - 1]
    case Added(a) => a !in Active(init)
    case Removed(a) => a in Active(init)
  }

  ghost function ValidPeers(t: Table): (s: set<Addr>) { set a | a in t.peers && t.peers[a].isValid }

  /** The system's neighbour table is exactly the set of valid peers. */
  ghost predicate Mirrors(t: Table) { Active(t.log) == ValidPeers(t) && Alternates(t.log) }

  lemma LogOne(log: seq<Event>, e: Event)
    ensures Active(log + [e]) == if e.Added? then Active(log) + {e.addr} else Active(log) - {e.addr}
    ensures Alternates(log + [e]) <==> Alternates(log) && (e.Added? <==> e.addr !in Active(log))
  {
    assert (log + [e])[..|log|] == log;
  }

  lemma {:induction false} LogRemoved(log: seq<Event>, gone: seq<Addr>)
    requires Distinct(gone)
    ensures Active(log + RemovedAll(gone)) == Active(log) - set a | a in gone
    ensures Alternates(log) && (forall a :: a in gone ==> a in Active(log)) ==> Alternates(log + RemovedAll(gone))
    decreases |gone|
  {
    if gone == [] {
      assert log + RemovedAll(gone) == log;
    } else {
      var n := |gone| - 1;
      var init, last := gone[..n], gone[n];
      LogRemoved(log, init);
      LogOne(log + RemovedAll(init), Removed(last));
      assert log + RemovedAll(gone) == log + RemovedAll(init) + [Removed(last)];
      assert forall a :: a in gone <==> a in init || a == last;
    }
  }

  /** Every valid peer has been reported, whatever else has. */
  ghost predicate Covers(t: Table) { ValidPeers(t) <= Active(t.log) }

  lemma AddMirrors(t: Table, addr: Addr, now: u64)
    ensures Mirrors(t) ==> Mirrors(DoAdd(t, addr, now))
    ensures Covers(t) ==> Covers(DoAdd(t, addr, now))
  {
    hide Active, Alternates;
    LogOne(t.log, Added(addr));
    var p := if addr in t.peers then t.peers[addr] else NewPeer(addr);
    var valid := ValidPeers(DoAdd(t, addr, now));
    assert valid == if p.isValid || Complete(p) then ValidPeers(t) + {addr} else ValidPeers(t);
  }

  lemma RemoveMirrors(t: Table, addr: Addr)
    ensures Mirrors(t) ==> Mirrors(DoRemove(t, addr))
    ensures Covers(t) ==> Covers(DoRemove(t, addr))
  {
    hide Active, Alternates;
    LogOne(t.log, Removed(addr));
    assert ValidPeers(DoRemove(t, addr)) == ValidPeers(t) - {addr};
  }

  lemma ExpireMirrors(t: Table, before: u64, r: Table)
    requires DoExpire(t, before, r)
    ensures Mirrors(t) ==> Mirrors(r)
    ensures Covers(t) ==> Covers(r)
  {
    hide Active, Alternates;
    var gone :| Reports(t, before, gone) && r.log == t.log + RemovedAll(gone);
    LogRemoved(t.log, gone);
    assert ValidPeers(r) == ValidPeers(t) - set a | a in gone;
  }

  /** Records lost without a report break the mirror exactly if a valid one is among
      them; the valid peers that are left are all reported still. */
  lemma FailMirrors(t: Table, kept: set<Addr>)
    ensures Mirrors(t) ==> (Mirrors(DoFail(t, kept)) <==> ValidPeers(t) <= kept)
    ensures Covers(t) ==> Covers(DoFail(t, kept))
  {
    hide Active, Alternates;
    assert ValidPeers(DoFail(t, kept)) == ValidPeers(t) * kept;
  }

  /** Every step keeps the mirror unless it loses a valid peer, and keeps all valid
      peers reported in any case. */
  lemma StepMirrors(t: Table, step: Step, r: Table)
    requires Next(t, step, r)
    ensures Mirrors(t) && Sparing(t, step) ==> Mirrors(r)
    ensures Covers(t) ==> Covers(r)
  {
    hide Active, Alternates, DoAdd, DoRemove, DoExpire, DoFail;
    match step
    case Add(addr, now) => AddMirrors(t, addr, now);
    case Update(addr) => assert ValidPeers(r) == ValidPeers(t);
    case Remove(addr) => RemoveMirrors(t, addr);
    case Expire(before) => ExpireMirrors(t, before, r);
    case Fail(kept) => FailMirrors(t, kept);
  }

  ghost predicate IsRun(tables: seq<Table>, steps: seq<Step>) {
    && |tables| == |steps| + 1 && tables[0] == Table(map[], [])
    && forall i :: 0 <= i < |steps| ==> Next(tables[i], steps[i], tables[i + 1])
  }

  /** Over every run all valid peers are reported neighbours; and until a valid peer
      is lost for want of memory, the reported neighbours are exactly the valid peers
      and the reports for each address alternate. */
  lemma {:induction false} RunMirrors(tables: seq<Table>, steps: seq<Step>, i: nat)
    requires IsRun(tables, steps) && i < |tables|
    ensures Covers(tables[i])
    ensures (forall j :: 0 <= j < i ==> Sparing(tables[j], steps[j])) ==> Mirrors(tables[i])
    decreases i
  {
    hide Mirrors, Covers, Sparing;
    if i > 0 {
      RunMirrors(tables, steps, i - 1);
      assert Next(tables[i - 1], steps[i - 1], tables[i - 1 + 1]);
      StepMirrors(tables[i - 1], steps[i - 1], tables[i]);
    } else {
      EmptyMirrors();
    }
  }

  lemma EmptyMirrors()
    ensures Mirrors(Table(map[], [])) && Covers(Table(map[], []))
  {
    assert ValidPeers(Table(map[], [])) == {};
  }
}
