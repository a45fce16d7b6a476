/** Convergence without any assumption on the network: with ties, with nodes out of
    reach of each other, with one-way links. States become final one node at a time,
    best claim first. */
module Convergence {
  import opened Types
  import opened Election
  import opened Network
  import opened Stabilisation

  type States = map<Addr, ElectionState>

  // ----- bids: what an undecided node may come to claim

  datatype Bid = Bid(node: Addr, own: Own, height: nat)

  function ClaimOf(s: ElectionState): (b: Bid) { Bid(s.self, Own(s.masterCounter, s.masterMetric), s.height) }

  /** a is at most as good as b, whoever makes the claims. */
  predicate NotAbove(a: Bid, b: Bid) { Below(a.own, b.own) || (a.own == b.own && a.height >= b.height) }

  /** An undecided node may name itself, or follow a neighbour whose state is final. */
  ghost function Bids(net: Network, done: States): (s: set<Bid>) {
    (set v | v in net.own && v !in done :: Bid(v, net.own[v], 0))
    + (set v, p | v in net.own && v !in done && p in net.hears[v] && p in done && Eligible(v, Candidate(true, done[p]))
         :: Following(v, done[p]))
  }

  /** What v bids when it follows a peer in state m. */
  function Following(v: Addr, m: ElectionState): (b: Bid) {
    Bid(v, Own(m.masterCounter, m.masterMetric), OneMore(m.height))
  }

  /** v hears p, whose state is final, and may follow it. */
  ghost predicate MayFollow(net: Network, done: States, v: Addr, p: Addr) {
    v in net.hears && p in net.hears[v] && p in done && Eligible(v, Candidate(true, done[p]))
  }

  lemma BidsAre(net: Network, done: States)
    ensures forall v :: v in net.own && v !in done ==> Bid(v, net.own[v], 0) in Bids(net, done)
    ensures forall v, p ::
              v in net.own && v !in done && MayFollow(net, done, v, p) ==> Following(v, done[p]) in Bids(net, done)
    ensures forall b :: b in Bids(net, done) ==>
              && b.node in net.own && b.node !in done
              && (b == Bid(b.node, net.own[b.node], 0)
                  || exists p :: MayFollow(net, done, b.node, p) && b == Following(b.node, done[p]))
  {
    forall b | b in Bids(net, done) && b.node in net.own && b != Bid(b.node, net.own[b.node], 0)
      ensures exists p :: MayFollow(net, done, b.node, p) && b == Following(b.node, done[p])
    {
      var p :| && p in net.hears[b.node] && p in done && Eligible(b.node, Candidate(true, done[p]))
               && b == Following(b.node, done[p]);
      assert MayFollow(net, done, b.node, p);
    }
  }

  /** The best bid, ties going to the greatest address. */
  ghost predicate Top(bids: set<Bid>, b: Bid) {
    && b in bids
    && forall c :: c in bids ==> NotAbove(c, b) && (c.own == b.own && c.height == b.height ==> c.node <= b.node)
  }

  lemma {:induction false} TopExists(bids: set<Bid>) returns (b: Bid)
    requires bids != {}
    ensures Top(bids, b)
    decreases |bids|
  {
    b :| b in bids;
    if bids != {b} {
      var rest := bids - {b};
      var c := TopExists(rest);
      assert forall x :: x in bids ==> x == b || x in rest;
      if NotAbove(b, c) && !(b.own == c.own && b.height == c.height && b.node > c.node) { b := c; }
    }
  }

  // ----- ladders that decide more and more nodes

  /** True of every state elected on the second run or later: the height is within the
      limit and only a root shows height 0. */
  ghost predicate Sound(net: Network, v: Addr, s: ElectionState) {
    Identity(net, v, s) && s.height <= TREE_MAX_HEIGHT && (s.height == 0 ==> s == ResetSelf(s))
  }

  /** On rung k of the ladder the nodes in `done` have these states. */
  ghost predicate Decides(x: Ladder, k: nat, done: States) {
    && done.Keys <= x.net.own.Keys && Filed(done)
    && forall v, s :: x.lvl(k, v, s) ==> Sound(x.net, v, s) && (v in done ==> s == done[v])
  }

  ghost predicate SoundAfter(net: Network, k: nat, v: Addr, s: ElectionState) {
    && (k >= 1 ==> Identity(net, v, s) && s.height <= TREE_MAX_HEIGHT)
    && (k >= 2 ==> Sound(net, v, s))
  }

  ghost function SoundRungs(net: Network): (lvl: Rungs) {
    (k: nat, v: Addr, s: ElectionState) => SoundAfter(net, k, v, s)
  }

  /** An election leaves a root, or follows an eligible neighbour. */
  lemma RunCases(s: ElectionState, t: States) returns (w: Option<Addr>)
    requires Filed(t)
    ensures w.None? ==> Elect(s, View(t)) == ResetSelf(s)
    ensures w.Some? ==>
              && w.value in t && Eligible(s.self, Candidate(true, t[w.value]))
              && Elect(s, View(t)) == Adopt(s, t[w.value])
  {
    var m := View(t);
    ElectIsOutcome(s, m);
    w := None;
    if !StaysRoot(s, m) {
      var k :| Wins(s, m, k) && Elect(s, m) == Adopt(s, m[k].state);
      w := Some(k);
    }
  }

  lemma SoundRun(net: Network, k: nat, s: ElectionState, t: States)
    requires RunInput(net, s, t) && TableAt(SoundRungs(net), k, t)
    ensures SoundAfter(net, k + 1, s.self, Elect(s, View(t)))
  {
    hide Elect, Eligible;
    var w := RunCases(s, t);
    if w.Some? {
      assert SoundRungs(net)(k, w.value, t[w.value]);
      SoundAdopt(net, k, s, w.value, t[w.value]);
    }
  }

  lemma SoundAdopt(net: Network, k: nat, s: ElectionState, p: Addr, m: ElectionState)
    requires Identity(net, s.self, s) && SoundAfter(net, k, p, m) && Eligible(s.self, Candidate(true, m))
    ensures SoundAfter(net, k + 1, s.self, Adopt(s, m))
  {}

  lemma Start(net: Network) returns (x: Ladder)
    ensures x.net == net && Decides(x, 2, map[])
  {
    var lvl := SoundRungs(net);
    forall k: nat, s: ElectionState, t: States | RunInput(net, s, t) && TableAt(lvl, k, t)
      ensures lvl(k + 1, s.self, Elect(s, View(t)))
    {
      SoundRun(net, k, s, t);
    }
    assert IsLadder(net, lvl) by { hide Elect; }
    x := RungsOn(net, lvl);
  }

  /** The state of a node that has not looked around yet. */
  function OwnState(v: Addr, o: Own): (s: ElectionState) {
    ResetSelf(ElectionState(v, v, v, 0, 0, o.metric, 0, o.counter))
  }

  ghost function DoneAround(net: Network, done: States, v: Addr): (t: States)
    requires v in net.own && Filed(done)
    ensures Filed(t)
  {
    map p | p in net.hears[v] && p in done :: done[p]
  }

  /** The state a node takes against its decided neighbours alone. */
  ghost function Decided(net: Network, done: States, v: Addr): (s: ElectionState)
    requires v in net.own && Filed(done)
    ensures s.self == v
  {
    Elect(OwnState(v, net.own[v]), View(DoneAround(net, done, v)))
  }

  /** Claims above the top bid are only echoes: they move out one hop per phase and
      are gone after 11. The top bidder is decided one phase later. */
  ghost predicate NextRung(x: Ladder, k0: nat, done: States, top: Bid, k: nat, v: Addr, s: ElectionState)
    requires top.node in x.net.own && Filed(done)
  {
    && x.lvl(k, v, s)
    && (k >= k0 && v !in done ==> NotAbove(ClaimOf(s), top) || k - k0 <= s.height)
    && (k >= k0 + 12 && v == top.node ==> s == Decided(x.net, done, v))
  }

  ghost function NextRungs(x: Ladder, k0: nat, done: States, top: Bid): (lvl: Rungs)
    requires top.node in x.net.own && Filed(done)
  {
    (k: nat, v: Addr, s: ElectionState) => NextRung(x, k0, done, top, k, v, s)
  }

  /** What is known of v's table while echoes have height h or more. */
  ghost predicate Heard(net: Network, done: States, top: Bid, h: nat, t: States) {
    forall p :: p in t ==>
      && Sound(net, p, t[p])
      && (if p in done then t[p] == done[p] else NotAbove(ClaimOf(t[p]), top) || h <= t[p].height)
  }

  /** An election of an undecided node gives a bid, or an echo one hop further out. */
  lemma EchoesAge(net: Network, done: States, top: Bid, h: nat, s: ElectionState, t: States)
    requires RunInput(net, s, t) && s.self !in done && Top(Bids(net, done), top) && Heard(net, done, top, h, t)
    ensures var q := Elect(s, View(t)); NotAbove(ClaimOf(q), top) || h + 1 <= q.height
  {
    hide Bids, Elect, NotAbove, Eligible, Heard;
    var v := s.self;
    BidsAre(net, done);
    var w := RunCases(s, t);
    if w.None? {
      assert Bid(v, net.own[v], 0) in Bids(net, done);
    } else {
      var p := w.value;
      HeardOf(net, done, top, h, t, p);
      if p in done { assert MayFollow(net, done, v, p); } else { EchoMoves(top, h, s, t[p]); }
    }
  }

  lemma HeardOf(net: Network, done: States, top: Bid, h: nat, t: States, p: Addr)
    requires Heard(net, done, top, h, t) && p in t
    ensures t[p].height <= TREE_MAX_HEIGHT
    ensures if p in done then t[p] == done[p] else NotAbove(ClaimOf(t[p]), top) || h <= t[p].height
  {}

  lemma EchoMoves(top: Bid, h: nat, s: ElectionState, m: ElectionState)
    requires m.height <= TREE_MAX_HEIGHT && (NotAbove(ClaimOf(m), top) || h <= m.height)
    ensures var q := Adopt(s, m); NotAbove(ClaimOf(q), top) || h + 1 <= q.height
  {}

  lemma SameOwn(net: Network, s: ElectionState)
    requires Identity(net, s.self, s)
    ensures var q := OwnState(s.self, net.own[s.self]);
            q.self == s.self && q.selfCounter == s.selfCounter && q.selfMetric == s.selfMetric
  {}

  /** With no echoes left, the undecided neighbours of the top bidder do not matter. */
  lemma TopIsDecided(net: Network, done: States, top: Bid, s: ElectionState, t: States)
    requires TopTable(net, done, top, s, t)
    ensures Elect(s, View(t)) == Decided(net, done, s.self)
  {
    hide Bids, Elect, NotAbove, Precedes, ResetSelf, Eligible, Sound;
    var v, d := s.self, DoneAround(net, done, s.self);
    SameOwn(net, s);
    ElectIgnoresHistory(s, OwnState(v, net.own[v]), View(d));
    ElectIsOutcome(s, View(d));
    if StaysRoot(s, View(d)) {
      RootStaysTop(net, done, top, s, t);
    } else {
      var w :| Wins(s, View(d), w) && Elect(s, View(d)) == Adopt(s, View(d)[w].state);
      WinnerStaysTop(net, done, top, s, w, t);
    }
    ElectIsOutcome(s, View(t));
    OutcomeUnique(s, View(t), Elect(s, View(t)), Elect(s, View(d)));
  }

  // ----- the orders compared, on values

  lemma RootBidsItself(top: Bid, s: ElectionState, m: ElectionState)
    requires NotAbove(Bid(s.self, Own(s.selfCounter, s.selfMetric), 0), top) && top == Following(s.self, m)
    requires OneMore(m.height) > 0
    ensures Precedes(ResetSelf(s), m)
  {}

  lemma NobodyAboveRoot(s: ElectionState, m: ElectionState)
    requires NotAbove(ClaimOf(m), Bid(s.self, Own(s.selfCounter, s.selfMetric), 0))
    requires m.height == 0 && ClaimOf(m).own == Own(s.selfCounter, s.selfMetric) ==> m.self <= s.self
    ensures !Precedes(ResetSelf(s), m)
  {}

  lemma UndecidedLoses(top: Bid, s: ElectionState, w: ElectionState, m: ElectionState)
    requires NotAbove(ClaimOf(m), top) && Precedes(ResetSelf(s), w) && s.self == top.node
    requires top == Following(s.self, w) || top == Bid(s.self, Own(s.selfCounter, s.selfMetric), 0)
    requires NotAbove(Following(s.self, w), top) && w.height <= TREE_MAX_HEIGHT
    requires m.height == 0 && top.height == 0 && ClaimOf(m).own == top.own ==> m.self <= s.self
    ensures Precedes(m, w)
  {}

  lemma BestIsTop(top: Bid, v: Addr, w: ElectionState, q: ElectionState)
    requires top == Following(v, q) && NotAbove(Following(v, w), top) && Precedes(q, w)
    requires w.height <= TREE_MAX_HEIGHT && q.height <= TREE_MAX_HEIGHT
    ensures top == Following(v, w)
  {}

  lemma SoundParts(net: Network, v: Addr, s: ElectionState)
    requires Sound(net, v, s)
    ensures s.self == v && s.height <= TREE_MAX_HEIGHT && OneMore(s.height) > 0 && v in net.own
    ensures s.height == 0 ==> ClaimOf(s).own == net.own[v]
  {}

  /** What the top bidder v reads once the echoes are gone. */
  ghost predicate TopTable(net: Network, done: States, top: Bid, s: ElectionState, t: States) {
    && RunInput(net, s, t) && s.self == top.node && s.self !in done && Filed(done) && Top(Bids(net, done), top)
    && Heard(net, done, top, TREE_MAX_HEIGHT + 1, t)
  }

  lemma Entry(net: Network, done: States, top: Bid, s: ElectionState, t: States, p: Addr)
    requires TopTable(net, done, top, s, t) && p in t
    ensures p in net.own && p in net.hears[s.self] && t[p].self == p
    ensures t[p].height <= TREE_MAX_HEIGHT && OneMore(t[p].height) > 0
    ensures p in done ==> t[p] == done[p]
    ensures p !in done ==>
              && NotAbove(ClaimOf(t[p]), top)
              && (t[p].height == 0 && top.height == 0 && ClaimOf(t[p]).own == top.own ==> p <= s.self)
  {
    hide Bids;
    BidsAre(net, done);
    SoundParts(net, p, t[p]);
    if p !in done { assert Bid(p, net.own[p], 0) in Bids(net, done); }
  }

  /** The top bidder bids itself, or the winner among its decided neighbours. */
  lemma TopSource(net: Network, done: States, top: Bid, s: ElectionState, t: States)
    requires TopTable(net, done, top, s, t)
    ensures var o := Own(s.selfCounter, s.selfMetric);
            && NotAbove(Bid(s.self, o, 0), top)
            && (top == Bid(s.self, o, 0)
                || exists q :: q in t && q in done && Eligible(s.self, View(t)[q]) && top == Following(s.self, t[q]))
  {
    hide Bids, Eligible, NotAbove, Following;
    BidsAre(net, done);
    assert Bid(s.self, net.own[s.self], 0) in Bids(net, done);
    if top != Bid(s.self, net.own[s.self], 0) {
      var q :| MayFollow(net, done, s.self, q) && top == Following(s.self, done[q]);
      assert q in t && t[q] == done[q];
    }
  }

  /** The best bid of a node that no decided neighbour attracts is itself. */
  lemma RootStaysTop(net: Network, done: States, top: Bid, s: ElectionState, t: States)
    requires TopTable(net, done, top, s, t) && StaysRoot(s, View(DoneAround(net, done, s.self)))
    ensures StaysRoot(s, View(t))
  {
    hide Precedes, Eligible, NotAbove, Following, Bids, ResetSelf, Heard, Identity, Top;
    var v, d, o := s.self, DoneAround(net, done, s.self), Own(s.selfCounter, s.selfMetric);
    TopSource(net, done, top, s, t);
    if top != Bid(v, o, 0) {
      var q :| q in t && q in done && Eligible(v, View(t)[q]) && top == Following(v, t[q]);
      Entry(net, done, top, s, t, q);
      assert q in d && View(d)[q] == View(t)[q];
      RootBidsItself(top, s, t[q]);
    }
    forall p | p in View(t) && Eligible(v, View(t)[p]) ensures !Precedes(ResetSelf(s), View(t)[p].state) {
      Entry(net, done, top, s, t, p);
      if p in done { assert p in d && View(d)[p] == View(t)[p]; } else { NobodyAboveRoot(s, t[p]); }
    }
  }

  /** A decided neighbour that wins among the decided also beats the others. */
  lemma WinnerStaysTop(net: Network, done: States, top: Bid, s: ElectionState, w: Addr, t: States)
    requires TopTable(net, done, top, s, t) && Wins(s, View(DoneAround(net, done, s.self)), w)
    ensures Wins(s, View(t), w)
  {
    hide Precedes, Eligible, NotAbove, Following, Bids, ResetSelf, Heard, Identity, Top;
    var v, d := s.self, DoneAround(net, done, s.self);
    assert w in d;
    Entry(net, done, top, s, t, w);
    WinnerIsTop(net, done, top, s, w, t);
    forall p | p in View(t) && p != w && Eligible(v, View(t)[p]) ensures Precedes(View(t)[p].state, View(t)[w].state) {
      Entry(net, done, top, s, t, p);
      if p in done {
        assert p in d && View(d)[p] == View(t)[p];
      } else {
        UndecidedLoses(top, s, t[w], t[p]);
      }
    }
  }

  lemma WinnerIsTop(net: Network, done: States, top: Bid, s: ElectionState, w: Addr, t: States)
    requires TopTable(net, done, top, s, t) && Wins(s, View(DoneAround(net, done, s.self)), w)
    requires w in t && t[w] == done[w]
    ensures NotAbove(Following(s.self, t[w]), top)
    ensures top == Following(s.self, t[w]) || top == Bid(s.self, Own(s.selfCounter, s.selfMetric), 0)
  {
    hide Precedes, NotAbove, Following, Bids, ResetSelf, Heard, Identity;
    var v, d := s.self, DoneAround(net, done, s.self);
    assert NotAbove(Following(v, t[w]), top) by {
      BidsAre(net, done);
      assert MayFollow(net, done, v, w);
    }
    TopSource(net, done, top, s, t);
    if top != Bid(v, Own(s.selfCounter, s.selfMetric), 0) {
      var q :| q in t && q in done && Eligible(v, View(t)[q]) && top == Following(v, t[q]);
      Entry(net, done, top, s, t, q);
      assert q in d && View(d)[q] == View(t)[q];
      if q != w {
        Entry(net, done, top, s, t, w);
        BestIsTop(top, v, t[w], t[q]);
      }
    }
  }

  // ----- one more node decided

  lemma RungTable(x: Ladder, k0: nat, done: States, top: Bid, k: nat, t: States)
    requires Decides(x, k0, done) && top.node in x.net.own && k >= k0 && TableAt(NextRungs(x, k0, done, top), k, t)
    ensures Heard(x.net, done, top, k - k0, t)
  {
    hide Sound, NotAbove;
    forall p | p in t
      ensures Sound(x.net, p, t[p])
      ensures if p in done then t[p] == done[p] else NotAbove(ClaimOf(t[p]), top) || k - k0 <= t[p].height
    {
      assert NextRungs(x, k0, done, top)(k, p, t[p]);
      assert x.lvl(k0, p, t[p]);
    }
  }

  lemma RungRun(x: Ladder, k0: nat, done: States, top: Bid, k: nat, s: ElectionState, t: States)
    requires Decides(x, k0, done) && Top(Bids(x.net, done), top) && top.node in x.net.own && top.node !in done
    requires RunInput(x.net, s, t) && TableAt(NextRungs(x, k0, done, top), k, t)
    ensures NextRung(x, k0, done, top, k + 1, s.self, Elect(s, View(t)))
  {
    hide Sound, NotAbove, Bids, Top, Elect, Decided, Heard;
    assert x.lvl(k + 1, s.self, Elect(s, View(t))) by {
      forall p | p in t ensures x.lvl(k, p, t[p]) { assert NextRungs(x, k0, done, top)(k, p, t[p]); }
      assert TableAt(x.lvl, k, t);
    }
    if k >= k0 {
      RungTable(x, k0, done, top, k, t);
      if s.self !in done { EchoesAge(x.net, done, top, k - k0, s, t); }
      if k >= k0 + 11 && s.self == top.node {
        HeardMore(x.net, done, top, k - k0, t);
        TopIsDecided(x.net, done, top, s, t);
      }
    }
  }

  lemma HeardMore(net: Network, done: States, top: Bid, h: nat, t: States)
    requires Heard(net, done, top, h, t) && h >= TREE_MAX_HEIGHT + 1
    ensures Heard(net, done, top, TREE_MAX_HEIGHT + 1, t)
  {}

  lemma NextIsLadder(x: Ladder, k0: nat, done: States, top: Bid)
    requires Decides(x, k0, done) && Top(Bids(x.net, done), top) && top.node in x.net.own && top.node !in done
    ensures IsLadder(x.net, NextRungs(x, k0, done, top))
  {
    assert Filed(done);
    hide Sound, NotAbove, Elect, Decided, Bids, Top, Decides;
    var lvl := NextRungs(x, k0, done, top);
    forall k: nat, s: ElectionState, t: States | RunInput(x.net, s, t) && TableAt(lvl, k, t)
      ensures lvl(k + 1, s.self, Elect(s, View(t)))
    {
      RungRun(x, k0, done, top, k, s, t);
    }
  }

  /** Twelve more phases decide one more node. */
  lemma DecideOne(x: Ladder, k: nat, done: States)
    returns (y: Ladder, a: Addr, more: States)
    requires Decides(x, k, done) && done.Keys != x.net.own.Keys
    ensures y.net == x.net && Decides(y, k + 12, more)
    ensures a in x.net.own && a !in done && more.Keys == done.Keys + {a}
  {
    hide Sound, NotAbove, Elect, Decided, Bids, IsLadder;
    BidsAre(x.net, done);
    var u :| u in x.net.own && u !in done;
    assert Bid(u, x.net.own[u], 0) in Bids(x.net, done);
    var top := TopExists(Bids(x.net, done));
    a := top.node;
    NextIsLadder(x, k, done, top);
    y := RungsOn(x.net, NextRungs(x, k, done, top));
    more := done[a := Decided(x.net, done, a)];
    forall v, s | y.lvl(k + 12, v, s) ensures Sound(x.net, v, s) && (v in more ==> s == more[v]) {
      assert NextRung(x, k, done, top, k + 12, v, s);
      LowerRung(x, k, k + 12, v, s);
    }
  }

  /** The bottom rung says nothing. */
  lemma BottomRung(x: Ladder, c: Config)
    ensures AtLevel(x.lvl, 0, c) && AllOnRung(x.lvl, 0, c.st)
  {}

  lemma LowerRung(x: Ladder, j: nat, k: nat, v: Addr, s: ElectionState)
    requires j <= k && x.lvl(k, v, s)
    ensures x.lvl(j, v, s)
  {}

  /** In the end every node is decided. */
  lemma {:induction false} DecideAll(x: Ladder, k: nat, done: States, left: nat)
    returns (y: Ladder, n: nat, all: States)
    requires Decides(x, k, done) && left == |x.net.own.Keys - done.Keys|
    ensures y.net == x.net && all.Keys == x.net.own.Keys
    ensures n == k + 12 * left && Decides(y, n, all)
    decreases left
  {
    DecidedNodes(x, k, done);
    hide Decides, IsLadder;
    if left == 0 {
      assert x.net.own.Keys - done.Keys == {};
      y, n, all := x, k, done;
    } else {
      assert done.Keys != x.net.own.Keys by { assert x.net.own.Keys - x.net.own.Keys == {}; }
      var z, a, more := DecideOne(x, k, done);
      OneLess(x.net.own.Keys, done.Keys, more.Keys, a);
      y, n, all := DecideAll(z, k + 12, more, left - 1);
    }
  }

  lemma DecidedNodes(x: Ladder, k: nat, done: States)
    requires Decides(x, k, done)
    ensures done.Keys <= x.net.own.Keys
  {}

  lemma OneLess(own: set<Addr>, done: set<Addr>, more: set<Addr>, a: Addr)
    requires a in own && a !in done && more == done + {a}
    ensures |own - more| == |own - done| - 1
  {
    assert own - more == (own - done) - {a};
  }

  // ----- the theorems

  /** Phases after which every network has converged. */
  function Enough(net: Network): (n: nat) { 2 + 12 * |net.own| }

  ghost function AllRoots(net: Network): (st: States)
    ensures ValidStates(net, st)
  {
    map v | v in net.own :: OwnState(v, net.own[v])
  }

  /** The limit: what simultaneous rounds reach when every node starts as a root. */
  ghost function Limit(net: Network): (st: States)
    ensures ValidStates(net, st)
  {
    Rounds(net, AllRoots(net), Enough(net))
  }

  lemma RoundsOnRung(x: Ladder, st: States, n: nat, v: Addr)
    requires ValidStates(x.net, st) && v in st
    ensures x.lvl(n, v, Rounds(x.net, st, n)[v])
  {
    hide Rounds, IsLadder, Identity;
    BottomRung(x, Config(st, map[]));
    RoundsLift(x, 0, st, n);
  }

  lemma LimitIs(y: Ladder, n: nat, all: States)
    requires n == Enough(y.net) && Decides(y, n, all) && all.Keys == y.net.own.Keys
    ensures Limit(y.net) == all && Decides(y, Enough(y.net), Limit(y.net))
  {
    hide Sound, Rounds, AllRoots, IsLadder, Identity;
    forall v | v in all ensures Limit(y.net)[v] == all[v] { RoundsOnRung(y, AllRoots(y.net), n, v); }
  }

  lemma LimitOfLadder(net: Network) returns (y: Ladder)
    ensures y.net == net && Decides(y, Enough(net), Limit(net))
  {
    hide Decides, IsLadder, Rounds, AllRoots, Identity;
    var x := Start(net);
    var none: States := map[];
    assert net.own.Keys - none.Keys == net.own.Keys;
    var n, all;
    y, n, all := DecideAll(x, 2, none, |net.own.Keys|);
    LimitIs(y, n, all);
  }

  /** Convergence. On any network, from any configuration and under any interleaving,
      after Enough phases every node has the state the limit gives it, for good. */
  lemma Converges(net: Network, c: Config, phases: seq<Stretch>, rest: seq<Step>)
    requires ValidConfig(net, c) && ArePhases(net, phases) && |phases| >= Enough(net)
    ensures Later(net, c, phases, rest).st == Limit(net)
  {
    hide Sound, IsLadder, Later, Limit, Identity, IsPhase;
    var y := LimitOfLadder(net);
    var st := Later(net, c, phases, rest).st;
    forall v | v in st ensures st[v] == Limit(net)[v] {
      LaterOnRung(y, c, phases, rest, v);
      LowerRung(y, Enough(net), |phases|, v, st[v]);
    }
  }

  lemma LaterOnRung(x: Ladder, c: Config, phases: seq<Stretch>, rest: seq<Step>, v: Addr)
    requires ValidConfig(x.net, c) && ArePhases(x.net, phases) && v in x.net.own
    ensures x.lvl(|phases|, v, Later(x.net, c, phases, rest).st[v])
  {
    hide IsLadder, Exec, ExecPhases, IsPhase, Identity;
    BottomRung(x, c);
    PhasesLift(x, 0, c, phases);
    LevelKept(x, |phases|, ExecPhases(x.net, c, phases), rest);
  }

  lemma RoundsReachLimit(net: Network, st: States, n: nat)
    requires ValidStates(net, st) && n >= Enough(net)
    ensures Rounds(net, st, n) == Limit(net)
  {
    hide Sound, IsLadder, Rounds, Limit, Elect;
    var y := LimitOfLadder(net);
    forall v | v in Rounds(net, st, n) ensures Rounds(net, st, n)[v] == Limit(net)[v] {
      RoundsOnRung(y, st, n, v);
      LowerRung(y, Enough(net), n, v, Rounds(net, st, n)[v]);
    }
  }

  lemma {:induction false} LastRound(net: Network, st: States, n: nat)
    requires ValidStates(net, st)
    ensures Rounds(net, st, n + 1) == Round(net, Rounds(net, st, n))
    decreases n
  {
    hide Round, Identity;
    if n > 0 { LastRound(net, Round(net, st), n - 1); }
  }

  lemma FixedIsStable(net: Network, st: States)
    requires ValidStates(net, st) && Round(net, st) == st
    ensures Stable(net, st)
  {
    hide Elect;
    forall v | v in st ensures StableAt(net, st, v) { assert Round(net, st)[v] == st[v]; }
  }

  /** Every network has exactly one stable configuration. */
  lemma StableIffLimit(net: Network, st: States)
    requires ValidStates(net, st)
    ensures Stable(net, st) <==> st == Limit(net)
  {
    hide Rounds, Round, Stable, Identity;
    if Stable(net, st) {
      StableRounds(net, st, Enough(net));
      RoundsReachLimit(net, st, Enough(net));
    }
    RoundsReachLimit(net, AllRoots(net), Enough(net) + 1);
    LastRound(net, AllRoots(net), Enough(net));
    FixedIsStable(net, Limit(net));
  }
}
