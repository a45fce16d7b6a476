/** One node's view of the master election: the preference between election
    states and the outcome of a run against a table of peers. */
module Election {
  import opened Types

  const TREE_MAX_HEIGHT: nat := 10
  const METRIC_INIT: u32 := 60
  const COUNTER_INIT: u32 := 0

  datatype ElectionState = ElectionState(
    master: Addr,
    sync: Addr,
    self: Addr,
    height: u32,
    masterMetric: u32,
    selfMetric: u32,
    masterCounter: u32,
    selfCounter: u32)

  /** What the election reads of one entry of the peer table. */
  datatype Candidate = Candidate(valid: bool, state: ElectionState)

  function Compare(a: u32, b: u32): (r: int) { CompareNum(a, b) }

  /** memcmp on the octets of two addresses; CompareAddrIsNumeric in Types shows
      that this is the numeric comparison. */
  function CompareAddr(a: Addr, b: Addr): (r: int) { CompareNum(a, b) }

  predicate IsSyncMaster(s: ElectionState, addr: Addr) { CompareAddr(s.sync, addr) == 0 }

  function ResetSelf(s: ElectionState): (r: ElectionState) {
    s.(height := 0, master := s.self, sync := s.self, masterMetric := s.selfMetric, masterCounter := s.selfCounter)
  }

  function InitState(self: Addr): (r: ElectionState) {
    ResetSelf(ElectionState(self, self, self, 0, 0, METRIC_INIT, 0, COUNTER_INIT))
  }

  /** A node starts as its own root with metric 60 and counter 0. */
  lemma StartsAsRoot(self: Addr)
    ensures InitState(self) == ElectionState(self, self, self, 0, 60, 60, 0, 0)
  {}

  function CompareMaster(a: ElectionState, b: ElectionState): (r: int) {
    var c := Compare(a.masterCounter, b.masterCounter);
    if c != 0 then c else Compare(a.masterMetric, b.masterMetric)
  }

  /** Height after syncing to a peer of height h, in 32-bit arithmetic. */
  function OneMore(h: u32): (r: u32) { (h + 1) % POW32 }

  /** The three rejections that do not look at the current best. */
  predicate Eligible(self: Addr, c: Candidate) {
    c.valid && !(OneMore(c.state.height) > TREE_MAX_HEIGHT) && !IsSyncMaster(c.state, self)
  }

  /** Whether the loop replaces the current best by an eligible peer. */
  predicate Accepts(peer: ElectionState, best: ElectionState) {
    var cmp := CompareMaster(peer, best);
    if cmp < 0 then false
    else if cmp == 0 then
      if peer.height > best.height then false
      else if peer.height == best.height then CompareAddr(peer.self, best.self) > 0
      else true
    else true
  }

  function Adopt(s: ElectionState, m: ElectionState): (r: ElectionState) {
    s.(master := m.master, sync := m.self, masterMetric := m.masterMetric, masterCounter := m.masterCounter,
       height := OneMore(m.height))
  }

  /** Counter, then metric, then nearness, then address: the reference order. */
  predicate Precedes(a: ElectionState, b: ElectionState) {
    || a.masterCounter < b.masterCounter
    || (a.masterCounter == b.masterCounter && a.masterMetric < b.masterMetric)
    || (a.masterCounter == b.masterCounter && a.masterMetric == b.masterMetric && a.height > b.height)
    || (a.masterCounter == b.masterCounter && a.masterMetric == b.masterMetric && a.height == b.height
        && a.self < b.self)
  }

  /** The branches of the loop compute the reference order, which is a strict
      total order on states of distinct nodes. */
  lemma AcceptsIsTotalOrder(a: ElectionState, b: ElectionState, c: ElectionState)
    ensures Accepts(b, a) <==> Precedes(a, b)
    ensures !Precedes(a, a)
    ensures Precedes(a, b) && Precedes(b, c) ==> Precedes(a, c)
    ensures a.self != b.self ==> Precedes(a, b) || Precedes(b, a)
    ensures !(Precedes(a, b) && Precedes(b, a))
  {}

  /** Every table entry describes the node it is filed under. */
  ghost predicate Keyed(peers: map<Addr, Candidate>) {
    forall k :: k in peers ==> peers[k].state.self == k
  }

  /** k is the greatest eligible peer and beats the node itself. */
  ghost predicate Wins(s: ElectionState, peers: map<Addr, Candidate>, k: Addr) {
    && k in peers && Eligible(s.self, peers[k]) && Precedes(ResetSelf(s), peers[k].state)
    && forall j :: j in peers && j != k && Eligible(s.self, peers[j]) ==> Precedes(peers[j].state, peers[k].state)
  }

  /** No eligible peer beats the node itself. */
  ghost predicate StaysRoot(s: ElectionState, peers: map<Addr, Candidate>) {
    forall j :: j in peers && Eligible(s.self, peers[j]) ==> !Precedes(ResetSelf(s), peers[j].state)
  }

  /** r is the outcome of the election of node s against the table. */
  ghost predicate IsOutcome(s: ElectionState, peers: map<Addr, Candidate>, r: ElectionState) {
    || (StaysRoot(s, peers) && r == ResetSelf(s))
    || (exists k :: Wins(s, peers, k) && r == Adopt(s, peers[k].state))
  }

  /** The best of the node itself and the peers seen so far. */
  ghost predicate Leads(s: ElectionState, peers: map<Addr, Candidate>, w: Option<Addr>) {
    match w
    case None => StaysRoot(s, peers)
    case Some(k) => Wins(s, peers, k)
  }

  ghost function Leader(s: ElectionState, peers: map<Addr, Candidate>, w: Option<Addr>): (r: ElectionState)
    requires Leads(s, peers, w)
  {
    if w.None? then ResetSelf(s) else peers[w.value].state
  }

  /** One turn of the loop keeps the best, whichever peer comes next. */
  lemma LeadsStep(s: ElectionState, peers: map<Addr, Candidate>, w: Option<Addr>, k: Addr, all: map<Addr, Candidate>)
    requires Keyed(all) && Leads(s, peers, w) && k !in peers && k in all && all == peers[k := all[k]]
    ensures var c := all[k];
            Leads(s, all, if Eligible(s.self, c) && Accepts(c.state, Leader(s, peers, w)) then Some(k) else w)
  {
    var c := all[k];
    AcceptsIsTotalOrder(Leader(s, peers, w), c.state, c.state);
    if Eligible(s.self, c) && Accepts(c.state, Leader(s, peers, w)) {
      forall j | j in all && j != k && Eligible(s.self, all[j]) ensures Precedes(all[j].state, c.state) {
        AcceptsIsTotalOrder(all[j].state, Leader(s, peers, w), c.state);
      }
    }
  }

  lemma {:induction false} LeaderExists(s: ElectionState, peers: map<Addr, Candidate>) returns (w: Option<Addr>)
    requires Keyed(peers)
    ensures Leads(s, peers, w)
    decreases |peers|
  {
    if peers.Keys == {} {
      w := None;
    } else {
      var k :| k in peers;
      var rest := peers - {k};
      assert |rest.Keys| < |peers.Keys| by { assert rest.Keys == peers.Keys - {k}; }
      var v := LeaderExists(s, rest);
      assert rest[k := peers[k]] == peers;
      LeadsStep(s, rest, v, k, peers);
      w := if Eligible(s.self, peers[k]) && Accepts(peers[k].state, Leader(s, rest, v)) then Some(k) else v;
    }
  }

  lemma LeadsIsOutcome(s: ElectionState, peers: map<Addr, Candidate>, w: Option<Addr>)
    requires Leads(s, peers, w)
    ensures IsOutcome(s, peers, if w.None? then ResetSelf(s) else Adopt(s, peers[w.value].state))
  {}

  lemma OutcomeExists(s: ElectionState, peers: map<Addr, Candidate>)
    requires Keyed(peers)
    ensures exists r :: IsOutcome(s, peers, r)
  {
    var w := LeaderExists(s, peers);
    LeadsIsOutcome(s, peers, w);
  }

  /** The outcome depends on the table as a map only: not on slots or order. */
  lemma OutcomeUnique(s: ElectionState, peers: map<Addr, Candidate>, q: ElectionState, r: ElectionState)
    requires IsOutcome(s, peers, q) && IsOutcome(s, peers, r)
    ensures q == r
  {
    if !StaysRoot(s, peers) {
      var k :| Wins(s, peers, k) && q == Adopt(s, peers[k].state);
      var l :| Wins(s, peers, l) && r == Adopt(s, peers[l].state);
      AcceptsIsTotalOrder(peers[k].state, peers[l].state, peers[k].state);
    }
  }

  /** The state a node holds after running the election. */
  ghost function Elect(s: ElectionState, peers: map<Addr, Candidate>): (r: ElectionState)
    requires Keyed(peers)
    ensures r.self == s.self && r.selfCounter == s.selfCounter && r.selfMetric == s.selfMetric
  {
    OutcomeExists(s, peers);
    var r :| IsOutcome(s, peers, r);
    r
  }

  lemma ElectIsOutcome(s: ElectionState, peers: map<Addr, Candidate>)
    requires Keyed(peers)
    ensures IsOutcome(s, peers, Elect(s, peers))
  {}

  /** Only the node's identity and its own counter and metric matter. */
  lemma ElectIgnoresHistory(s: ElectionState, t: ElectionState, peers: map<Addr, Candidate>)
    requires Keyed(peers)
    requires s.self == t.self && s.selfCounter == t.selfCounter && s.selfMetric == t.selfMetric
    ensures Elect(s, peers) == Elect(t, peers)
  {
    var r := Elect(s, peers);
    if StaysRoot(s, peers) {
      assert StaysRoot(t, peers);
      assert r == ResetSelf(s) == ResetSelf(t);
    } else {
      var k :| Wins(s, peers, k) && r == Adopt(s, peers[k].state);
      assert Wins(t, peers, k);
      assert Adopt(s, peers[k].state) == Adopt(t, peers[k].state);
    }
    OutcomeUnique(t, peers, r, Elect(t, peers));
  }

  /** A peer that advertises height 2^32 - 1 slips under the height limit: the sum
      wraps, and a node that adopts it shows height 0 without being a root. For every
      other height the limit holds and an adopted state is above its sync master. */
  lemma WrapFakesRoot(s: ElectionState, m: ElectionState)
    requires m.sync != s.self
    ensures m.height == POW32 - 1 ==> Eligible(s.self, Candidate(true, m)) && Adopt(s, m).height == 0
    ensures m.height < POW32 - 1 ==>
              && (Eligible(s.self, Candidate(true, m)) <==> m.height < TREE_MAX_HEIGHT)
              && Adopt(s, m).height == m.height + 1
  {}
}
