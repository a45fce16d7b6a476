/** The parts of the daemon that keep the peer table and the election together. */
module Node {
  import opened Types
  import opened Election
  import opened PeerModel
  import opened HashSpec
  import opened Peers

  const PEERS_DEFAULT_TIMEOUT: u64 := 2000000

  /** What the election reads of a peer table. */
  ghost function Candidates(t: Table): (m: map<Addr, Candidate>)
    ensures ValidTable(t) ==> Keyed(m)
  {
    map a | a in t.peers :: Candidate(t.peers[a].isValid, t.peers[a].election)
  }

  /** The candidates in the slots before i. */
  ghost function Seen<V>(t: Table, slots: seq<Slot<Addr, V>>, i: nat): (m: map<Addr, Candidate>) {
    map a | a in t.peers && HeldBefore(slots, i, a) :: Candidate(t.peers[a].isValid, t.peers[a].election)
  }

  lemma SeenNext<V>(t: Table, hash: Addr -> nat, slots: seq<Slot<Addr, V>>, count: nat, all: map<Addr, V>, i: nat)
    requires Represents(hash, slots, count, all) && all.Keys == t.peers.Keys && i < |slots| && slots[i].Used?
    ensures var k := slots[i].key;
            && k in all && slots[i].value == all[k] && k !in Seen(t, slots, i)
            && Seen(t, slots, i + 1) == Seen(t, slots, i)[k := Candidate(t.peers[k].isValid, t.peers[k].election)]
  {
    hide Represents, HeldBefore;
    UsedKeyInMap(hash, slots, count, all, i);
    OnlyHere(hash, slots, count, all, i);
  }

  lemma SeenSkips<V>(t: Table, slots: seq<Slot<Addr, V>>, i: nat, j: nat)
    requires i <= j <= |slots| && forall l: nat :: i <= l < j ==> slots[l].Free?
    ensures Seen(t, slots, j) == Seen(t, slots, i)
  {
    assert forall a: Addr :: HeldBefore(slots, j, a) <==> HeldBefore(slots, i, a);
  }

  lemma SeenAll<V>(t: Table, hash: Addr -> nat, slots: seq<Slot<Addr, V>>, count: nat, all: map<Addr, V>)
    requires Represents(hash, slots, count, all) && all.Keys == t.peers.Keys
    ensures Seen(t, slots, |slots|) == Candidates(t)
  {
    hide Represents, HeldBefore;
    forall a: Addr ensures a in all <==> HeldBefore(slots, |slots|, a) { KeysAreHeld(hash, slots, count, all, a); }
  }

  lemma StartLeads<V>(s: ElectionState, t: Table, slots: seq<Slot<Addr, V>>, i: nat)
    requires i <= |slots| && forall j: nat :: j < i ==> slots[j].Free?
    ensures Leads(s, Seen(t, slots, i), None) && Leader(s, Seen(t, slots, i), None) == ResetSelf(s)
  {}

  lemma TurnLeads<V>(s: ElectionState, t: Table, slots: seq<Slot<Addr, V>>, i: nat, w: Option<Addr>, k: Addr)
    requires ValidTable(t) && k in t.peers && k !in Seen(t, slots, i) && Leads(s, Seen(t, slots, i), w)
    requires Seen(t, slots, i + 1) == Seen(t, slots, i)[k := Candidate(t.peers[k].isValid, t.peers[k].election)]
    ensures var c := Candidate(t.peers[k].isValid, t.peers[k].election);
            var best := Leader(s, Seen(t, slots, i), w);
            if Eligible(s.self, c) && Accepts(c.state, best)
            then Leads(s, Seen(t, slots, i + 1), Some(k)) && Leader(s, Seen(t, slots, i + 1), Some(k)) == c.state
            else Leads(s, Seen(t, slots, i + 1), w) && Leader(s, Seen(t, slots, i + 1), w) == best
  {
    hide HeldBefore, Accepts, Eligible;
    LeadsStep(s, Seen(t, slots, i), w, k, Seen(t, slots, i + 1));
  }

  /** `best` leads among the node itself and the peers in the slots before i. */
  ghost predicate Progress<V>(
      s: ElectionState, t: Table, slots: seq<Slot<Addr, V>>, i: nat, w: Option<Addr>, best: ElectionState)
  {
    Leads(s, Seen(t, slots, i), w) && best == Leader(s, Seen(t, slots, i), w)
  }

  /** Considering the peer in slot i and moving on to the next slot in use. */
  lemma ProgressTurn<V>(s: ElectionState, t: Table, hash: Addr -> nat, slots: seq<Slot<Addr, V>>, count: nat,
                        all: map<Addr, V>, i: nat, next: nat, w: Option<Addr>, best: ElectionState)
    requires ValidTable(t) && Represents(hash, slots, count, all) && all.Keys == t.peers.Keys
    requires i < next <= |slots| && slots[i].Used? && forall j: nat :: i < j < next ==> slots[j].Free?
    requires Progress(s, t, slots, i, w, best)
    ensures var k := slots[i].key;
            k in t.peers &&
            var c := Candidate(t.peers[k].isValid, t.peers[k].election);
            if Eligible(s.self, c) && Accepts(c.state, best)
            then Progress(s, t, slots, next, Some(k), c.state)
            else Progress(s, t, slots, next, w, best)
  {
    hide Represents, InChain, Seen, Leads, Accepts, Eligible, Filed, ValidTable;
    SeenNext(t, hash, slots, count, all, i);
    TurnLeads(s, t, slots, i, w, slots[i].key);
    SeenSkips(t, slots, i + 1, next);
  }

  lemma ProgressStart<V>(s: ElectionState, t: Table, slots: seq<Slot<Addr, V>>, i: nat)
    requires i <= |slots| && forall j: nat :: j < i ==> slots[j].Free?
    ensures Progress(s, t, slots, i, None, ResetSelf(s))
  {
    StartLeads(s, t, slots, i);
  }

  lemma ProgressEnd<V>(s: ElectionState, t: Table, hash: Addr -> nat, slots: seq<Slot<Addr, V>>, count: nat,
                       all: map<Addr, V>, w: Option<Addr>, best: ElectionState)
    requires ValidTable(t) && Represents(hash, slots, count, all) && all.Keys == t.peers.Keys
    requires Progress(s, t, slots, |slots|, w, best)
    ensures Elect(s, Candidates(t)) == if w.None? then ResetSelf(s) else Adopt(ResetSelf(s), best)
  {
    hide Represents, Leads, Elect;
    SeenAll(t, hash, slots, count, all);
    EndLeads(s, Candidates(t), w);
  }

  lemma EndLeads(s: ElectionState, peers: map<Addr, Candidate>, w: Option<Addr>)
    requires Keyed(peers) && Leads(s, peers, w)
    ensures Elect(s, peers) == if w.None? then ResetSelf(s) else Adopt(ResetSelf(s), Leader(s, peers, w))
  {
    LeadsIsOutcome(s, peers, w);
    ElectIsOutcome(s, peers);
    OutcomeUnique(s, peers, Elect(s, peers), if w.None? then ResetSelf(s) else Adopt(s, peers[w.value].state));
  }

  /** The node is its own root, or syncs to a valid peer that is still in the table. */
  ghost predicate SyncsToPresentPeer(t: Table, e: ElectionState) {
    e == ResetSelf(e) || (e.sync in t.peers && t.peers[e.sync].isValid)
  }

  lemma ElectionSyncs(t: Table, e: ElectionState)
    requires ValidTable(t)
    ensures SyncsToPresentPeer(t, Elect(e, Candidates(t)))
  {
    var m := Candidates(t);
    ElectIsOutcome(e, m);
    if !StaysRoot(e, m) {
      var k :| Wins(e, m, k) && Elect(e, m) == Adopt(e, m[k].state);
    }
  }

  /** Peers last heard before this are dropped: 64-bit subtraction. */
  function Cutoff(now: u64, timeout: u64): (c: u64) { (now - timeout) % POW64 }

  predicate Dropped(lastUpdate: u64, now: u64, timeout: u64) { lastUpdate < Cutoff(now, timeout) }

  predicate TimedOut(lastUpdate: u64, now: u64, timeout: u64) { lastUpdate + timeout < now }

  /** The clean-up drops exactly the peers silent for longer than the timeout if
      and only if the clock is past the timeout; before that, the difference wraps
      and every peer is dropped. */
  lemma CutoffExact(now: u64, timeout: u64)
    ensures now >= timeout <==> forall u: u64 :: u <= now ==> (Dropped(u, now, timeout) <==> TimedOut(u, now, timeout))
    ensures now < timeout ==> forall u: u64 :: u <= now ==> Dropped(u, now, timeout)
  {
    if now < timeout {
      assert Cutoff(now, timeout) == POW64 + now - timeout;
      assert Dropped(0, now, timeout) && !TimedOut(0, now, timeout);
    } else {
      assert Cutoff(now, timeout) == now - timeout;
    }
  }

  // ----- whole runs of table and election

  datatype NodeState = NodeState(table: Table, election: ElectionState)

  /** A frame refreshes a peer, its TLVs update the record, the table is cleaned and
      the election run; or memory runs out while a new peer is filed. */
  datatype NodeStep = Frame(addr: Addr, now: u64) | Tlvs(addr: Addr) | Clean(now: u64) | NoMemory(kept: set<Addr>)

  ghost predicate NodeNext(n: NodeState, step: NodeStep, r: NodeState) {
    match step
    case Frame(addr, now) => r == NodeState(DoAdd(n.table, addr, now), n.election)
    case Tlvs(addr) => DoUpdate(n.table, addr, r.table) && r.election == n.election
    case Clean(now) =>
      && DoExpire(n.table, Cutoff(now, PEERS_DEFAULT_TIMEOUT), r.table) && ValidTable(r.table)
      && r.election == Elect(n.election, Candidates(r.table))
    case NoMemory(kept) => r == NodeState(DoFail(n.table, kept), n.election)
  }

  ghost predicate IsNodeRun(self: Addr, states: seq<NodeState>, steps: seq<NodeStep>) {
    && |states| == |steps| + 1 && states[0] == NodeState(Table(map[], []), InitState(self))
    && forall i :: 0 <= i < |steps| ==> NodeNext(states[i], steps[i], states[i + 1])
  }

  /** The step loses no valid peer for want of memory. */
  ghost predicate Spares(n: NodeState, step: NodeStep) { step.NoMemory? ==> ValidPeers(n.table) <= step.kept }

  ghost predicate Spared(states: seq<NodeState>, steps: seq<NodeStep>, from: nat, to: nat)
    requires |states| == |steps| + 1 && to <= |steps|
  {
    forall j :: from <= j < to ==> Spares(states[j], steps[j])
  }

  /** What every step keeps, and what it keeps unless it loses a valid peer. A clean-up
      restores the sync master whatever happened before it. */
  lemma NodeStepKeeps(n: NodeState, step: NodeStep, r: NodeState)
    requires ValidTable(n.table) && NodeNext(n, step, r)
    ensures ValidTable(r.table)
    ensures Covers(n.table) ==> Covers(r.table)
    ensures Mirrors(n.table) && Spares(n, step) ==> Mirrors(r.table)
    ensures SyncsToPresentPeer(n.table, n.election) && Spares(n, step) ==> SyncsToPresentPeer(r.table, r.election)
    ensures step.Clean? ==> SyncsToPresentPeer(r.table, r.election)
  {
    hide Active, Alternates, Elect, Mirrors, Covers;
    match step
    case Frame(addr, now) => StepMirrors(n.table, Add(addr, now), r.table);
    case Tlvs(addr) => StepMirrors(n.table, Update(addr), r.table);
    case Clean(now) =>
      hide DoExpire;
      StepMirrors(n.table, Expire(Cutoff(now, PEERS_DEFAULT_TIMEOUT)), r.table);
      ElectionSyncs(r.table, n.election);
    case NoMemory(kept) => StepMirrors(n.table, Fail(kept), r.table);
  }

  /** In every reachable state every valid peer is a reported neighbour; and as long as
      no valid peer was lost, the reported neighbours are exactly the valid peers. */
  lemma {:induction false} NodeRunKeeps(self: Addr, states: seq<NodeState>, steps: seq<NodeStep>, i: nat)
    requires IsNodeRun(self, states, steps) && i < |states|
    ensures ValidTable(states[i].table) && Covers(states[i].table)
    ensures Spared(states, steps, 0, i) ==> Mirrors(states[i].table)
    decreases i
  {
    hide Elect, NodeNext, Mirrors, Covers, Spares;
    if i > 0 {
      NodeRunKeeps(self, states, steps, i - 1);
      assert NodeNext(states[i - 1], steps[i - 1], states[i - 1 + 1]);
      NodeStepKeeps(states[i - 1], steps[i - 1], states[i]);
    } else {
      EmptyMirrors();
    }
  }

  /** In every state reached since the start or since any clean-up without losing a
      valid peer, the sync master is the node itself or a valid peer in the table. */
  lemma {:induction false} NodeRunSyncs(self: Addr, states: seq<NodeState>, steps: seq<NodeStep>, from: nat, i: nat)
    requires IsNodeRun(self, states, steps) && from <= i < |states|
    requires (from == 0 || steps[from - 1].Clean?) && Spared(states, steps, from, i)
    ensures SyncsToPresentPeer(states[i].table, states[i].election)
    decreases i
  {
    hide Elect, NodeNext, Mirrors, Covers, Spares, SyncsToPresentPeer;
    if i > 0 {
      NodeRunKeeps(self, states, steps, i - 1);
      assert NodeNext(states[i - 1], steps[i - 1], states[i - 1 + 1]);
      NodeStepKeeps(states[i - 1], steps[i - 1], states[i]);
      if from < i { NodeRunSyncs(self, states, steps, from, i - 1); }
    } else {
      StartSyncs(self);
    }
  }

  lemma StartSyncs(self: Addr)
    ensures SyncsToPresentPeer(Table(map[], []), InitState(self))
  {}

  class AwdlNode {
    const peers: PeerTable
    const timeout: u64
    var election: ElectionState

    ghost predicate Valid()
      reads this, peers, peers.index, peers.index.table, peers.index.contents.Values
    {
      peers.Valid()
    }

    constructor (self: Addr, hash: Addr -> nat, cap: nat, grant: nat -> bool)
      requires INITIAL_SIZE <= cap
      ensures Valid() && fresh(peers) && fresh(peers.index) && fresh(peers.index.table)
      ensures election == InitState(self) && peers.model == Table(map[], [])
      ensures SyncsToPresentPeer(peers.model, election) && timeout == 2000000
    {
      peers := new PeerTable(hash, cap, grant);
      timeout := PEERS_DEFAULT_TIMEOUT;
      election := InitState(self);
    }

    /** Whether slot i of the table holds a peer that replaces `best`. */
    method Consider(i: nat, best: ElectionState) returns (accept: bool, state: ElectionState)
      requires i < peers.index.table.Length && peers.index.table[i].Used?
      ensures state == peers.index.table[i].value.info.election
      ensures var c := Candidate(peers.index.table[i].value.info.isValid, state);
              accept == (Eligible(election.self, c) && Accepts(state, best))
    {
      var peer := peers.index.table[i].value;
      state := peer.info.election;
      accept := false;
      if !peer.info.isValid { return; }
      if OneMore(state.height) > TREE_MAX_HEIGHT { return; }
      if IsSyncMaster(state, election.self) { return; }
      var cmp := CompareMaster(state, best);
      if cmp < 0 {
        return;
      } else if cmp == 0 {
        if state.height > best.height {
          return;
        } else if state.height == best.height {
          if CompareAddr(state.self, best.self) <= 0 { return; }
        }
      }
      accept := true;
    }

    /** Runs the election over the hash table, slot by slot. */
    method RunElection()
      requires Valid()
      modifies this`election
      ensures election == Elect(old(election), Candidates(peers.model))
    {
      hide Represents, InChain, Progress, Elect, Accepts, Eligible, Filed;
      ghost var s := election;
      ghost var t, slots, count, all := peers.model, peers.index.table[..], peers.index.size, peers.index.contents;
      assert forall a :: a in all ==> peers.Linked(a);
      election := ResetSelf(election);
      var best, isSelf := election, true;
      ghost var w: Option<Addr> := None;
      var i := peers.index.NextInUse(0);
      ProgressStart(s, t, slots, i);
      while i < peers.index.table.Length
        invariant i <= peers.index.table.Length && (i < peers.index.table.Length ==> peers.index.table[i].Used?)
        invariant election == ResetSelf(s) && isSelf == w.None?
        invariant Progress(s, t, slots, i, w, best)
        decreases peers.index.table.Length - i
      {
        var accept, state := Consider(i, best);
        ghost var k := slots[i].key;
        UsedKeyInMap(peers.index.hash, slots, count, all, i);
        var next := peers.index.NextInUse(i + 1);
        ProgressTurn(s, t, peers.index.hash, slots, count, all, i, next, w, best);
        if accept {
          best, isSelf, w := state, false, Some(k);
        }
        i := next;
      }
      if !isSelf {
        election := Adopt(election, best);
      }
      ProgressEnd(s, t, peers.index.hash, slots, count, all, w, best);
    }

    /** Periodic clean-up: expire silent peers, then elect among the rest. */
    method CleanPeers(now: u64)
      requires Valid()
      modifies this`election, peers, peers.index, peers.index.table
      ensures Valid()
      ensures DoExpire(old(peers.model), Cutoff(now, timeout), peers.model)
      ensures election == Elect(old(election), Candidates(peers.model))
      ensures SyncsToPresentPeer(peers.model, election)
    {
      hide DoExpire, Elect, SyncsToPresentPeer, Represents, Filed;
      var cutoff := Cutoff(now, timeout);
      peers.RemoveBefore(cutoff);
      RunElection();
      ElectionSyncs(peers.model, old(election));
    }
  }
}
