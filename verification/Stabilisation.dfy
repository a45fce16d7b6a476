/** Self-stabilisation of the election: from arbitrary advertised states the
    network settles on the shortest-path tree of its best node. */
module Stabilisation {
  import opened Types
  import opened Election
  import opened Network

  // ----- distances

  ghost predicate Walk(net: Network, u: Addr, v: Addr, n: nat)
    decreases n
  {
    if n == 0 then u == v else v in net.hears && exists p :: p in net.hears[v] && Walk(net, u, p, n - 1)
  }

  /** The nodes that u's information can reach in at most n hops. */
  ghost function Ball(net: Network, u: Addr, n: nat): (b: set<Addr>) {
    if n == 0 then {u}
    else Ball(net, u, n - 1) + set v | v in net.hears.Keys && net.hears[v] * Ball(net, u, n - 1) != {}
  }

  /** The fewest hops from r to v are d. */
  ghost predicate AtDist(net: Network, r: Addr, v: Addr, d: nat) {
    v in Ball(net, r, d) && (d > 0 ==> v !in Ball(net, r, d - 1))
  }

  lemma {:induction false} WalkInBall(net: Network, u: Addr, v: Addr, n: nat)
    requires Walk(net, u, v, n)
    ensures v in Ball(net, u, n)
    decreases n
  {
    if n > 0 {
      var p :| p in net.hears[v] && Walk(net, u, p, n - 1);
      WalkInBall(net, u, p, n - 1);
      assert p in net.hears[v] * Ball(net, u, n - 1);
    }
  }

  lemma {:induction false} BallGrows(net: Network, u: Addr, m: nat, n: nat)
    requires m <= n
    ensures Ball(net, u, m) <= Ball(net, u, n)
    decreases n - m
  {
    if m < n { BallGrows(net, u, m + 1, n); }
  }

  lemma HearingExtendsBall(net: Network, u: Addr, p: Addr, v: Addr, n: nat)
    requires v in net.hears && p in net.hears[v] && p in Ball(net, u, n)
    ensures v in Ball(net, u, n + 1)
  {
    assert p in net.hears[v] * Ball(net, u, n);
  }

  // ----- what stabilisation aims at

  predicate Below(a: Own, b: Own) { a.counter < b.counter || (a.counter == b.counter && a.metric < b.metric) }

  /** r's counter and metric are strictly the greatest. */
  ghost predicate StrictlyBest(net: Network, r: Addr) {
    forall u :: u in net.own && u != r ==> r in net.own && Below(net.own[u], net.own[r])
  }

  /** u gives way to r: by counter and metric or, when these are equal, by address
      provided that it hears r itself. */
  ghost predicate GivesWay(net: Network, r: Addr, u: Addr)
    requires r in net.own && u in net.own
  {
    Below(net.own[u], net.own[r]) || (net.own[u] == net.own[r] && u < r && r in net.hears[u])
  }

  ghost predicate Dominates(net: Network, r: Addr) {
    r in net.own && forall u :: u in net.own && u != r ==> GivesWay(net, r, u)
  }

  /** Everybody hears everybody, and r is greatest when ties are broken by address. */
  ghost predicate BestOfMesh(net: Network, r: Addr) {
    && (forall v :: v in net.hears ==> net.hears[v] == net.own.Keys - {v})
    && (forall u :: u in net.own && u != r ==>
          r in net.own && (Below(net.own[u], net.own[r]) || (net.own[u] == net.own[r] && u < r)))
  }

  lemma SpecialCases(net: Network, r: Addr)
    requires r in net.own && (StrictlyBest(net, r) || BestOfMesh(net, r))
    ensures Dominates(net, r)
  {}

  /** Phases from r's election to that of a node d hops away. Nodes tied with r may
      have spread claims about themselves, which costs one phase more. */
  ghost function Patience(net: Network, r: Addr, d: nat): (n: nat)
    ensures d <= n <= d + 1
  {
    if d <= 1 || StrictlyBest(net, r) then d else d + 1
  }

  /** The neighbours of v that are one hop closer to r. */
  ghost function Parents(net: Network, r: Addr, v: Addr, d: nat): (s: set<Addr>)
    requires d > 0 && v in net.hears
  {
    set p | p in net.hears[v] && AtDist(net, r, p, d - 1)
  }

  /** The one final state of a node d hops from r: master r at the true distance,
      syncing to the closer neighbour of greatest address. */
  ghost predicate Settled(net: Network, r: Addr, v: Addr, d: nat, s: ElectionState) {
    && Identity(net, v, s) && r in net.own && v in net.hears
    && s.master == r && s.masterCounter == net.own[r].counter && s.masterMetric == net.own[r].metric
    && s.height == d
    && (d == 0 ==> s.sync == r)
    && (d > 0 ==> s.sync in Parents(net, r, v, d) && forall p :: p in Parents(net, r, v, d) ==> p <= s.sync)
  }

  // ----- levels: what holds of a state advertised by v after k phases

  /** The state is true of somebody: its master exists with that counter and
      metric, and is really that many hops away along some walk. */
  ghost predicate Genuine(net: Network, v: Addr, s: ElectionState) {
    && s.height <= TREE_MAX_HEIGHT && s.master in net.own
    && s.masterCounter == net.own[s.master].counter && s.masterMetric == net.own[s.master].metric
    && Walk(net, s.master, v, s.height)
  }

  /** The claim is as good as r's own, yet v is not that close to r. */
  ghost predicate Rival(net: Network, r: Addr, v: Addr, s: ElectionState)
    requires r in net.own
  {
    s.masterCounter == net.own[r].counter && s.masterMetric == net.own[r].metric && v !in Ball(net, r, s.height)
  }

  /** False information has been pushed out to height k - 1 or more; past level 13
      so have claims about nodes tied with r; and nodes settle by their distance. */
  ghost predicate Level(net: Network, r: Addr, k: nat, v: Addr, s: ElectionState) {
    && (k >= 1 ==> Genuine(net, v, s) || (k - 1 <= s.height < POW32 - 1))
    && (k >= 2 ==> s.height <= TREE_MAX_HEIGHT)
    && (k >= 13 ==> r in net.own && (Rival(net, r, v, s) ==> !StrictlyBest(net, r) && k - 13 <= s.height))
    && (k >= 13 ==> forall d: nat ::
          13 + Patience(net, r, d) <= k && d <= TREE_MAX_HEIGHT && AtDist(net, r, v, d) ==> Settled(net, r, v, d, s))
  }

  ghost function Claims(net: Network, r: Addr): (lvl: Rungs) {
    (k: nat, v: Addr, s: ElectionState) => Level(net, r, k, v, s)
  }

  // ----- one election raises the level

  /** An adopted state is genuine, or one hop further out. */
  lemma AdoptPurges(net: Network, r: Addr, k: nat, s: ElectionState, p: Addr, m: ElectionState)
    requires s.self in net.hears && p in net.hears[s.self] && Level(net, r, k, p, m)
    requires OneMore(m.height) <= TREE_MAX_HEIGHT
    ensures var q := Adopt(s, m); Genuine(net, s.self, q) || (k <= q.height <= TREE_MAX_HEIGHT)
  {
    if Genuine(net, p, m) { assert Walk(net, m.master, s.self, m.height + 1); }
  }

  lemma RunPurges(net: Network, r: Addr, k: nat, s: ElectionState, t: map<Addr, ElectionState>)
    requires RunInput(net, s, t)
    requires TableAt(Claims(net, r), k, t)
    ensures var q := Elect(s, View(t)); Genuine(net, s.self, q) || (k <= q.height <= TREE_MAX_HEIGHT)
  {
    var q := Elect(s, View(t));
    ElectIsOutcome(s, View(t));
    if !StaysRoot(s, View(t)) {
      var w :| Wins(s, View(t), w) && q == Adopt(s, View(t)[w].state);
      AdoptPurges(net, r, k, s, w, t[w]);
    }
  }

  /** A true claim is at most as good as r's own; at height 0 it loses to r itself. */
  lemma TrueClaim(net: Network, r: Addr, p: Addr, s: ElectionState)
    requires Dominates(net, r) && Genuine(net, p, s) && s.self == p
    ensures var o := Own(s.masterCounter, s.masterMetric);
            Below(o, net.own[r]) || (o == net.own[r] && (s.height == 0 ==> p <= r))
  {
    assert s.master != r ==> GivesWay(net, r, s.master);
  }

  /** Against genuine neighbours, nobody beats the dominating node. */
  lemma RootStays(net: Network, r: Addr, k: nat, s: ElectionState, t: map<Addr, ElectionState>)
    requires Dominates(net, r) && RunInput(net, s, t) && s.self == r
    requires k >= 12 && TableAt(Claims(net, r), k, t)
    ensures Settled(net, r, r, 0, Elect(s, View(t)))
  {
    var m := View(t);
    forall p | p in m && Eligible(r, m[p]) ensures !Precedes(ResetSelf(s), m[p].state) {
      assert Level(net, r, k, p, t[p]) && Genuine(net, p, t[p]);
      TrueClaim(net, r, p, t[p]);
    }
    assert StaysRoot(s, m);
  }

  /** A settled closer neighbour is eligible and beats the node itself. */
  lemma ParentEligible(net: Network, r: Addr, d: nat, s: ElectionState, p: Addr, c: Candidate)
    requires Dominates(net, r) && Identity(net, s.self, s)
    requires 0 < d <= TREE_MAX_HEIGHT && AtDist(net, r, s.self, d) && p in Parents(net, r, s.self, d)
    requires c.valid && Settled(net, r, p, d - 1, c.state)
    ensures Eligible(s.self, c) && Precedes(ResetSelf(s), c.state)
  {
    ParentLooksAway(net, r, s.self, d, p, c.state);
    assert s.self != r by { BallGrows(net, r, 0, d - 1); }
    assert GivesWay(net, r, s.self);
    if r in net.hears[s.self] {
      hide Ball;
      OneHop(net, r, s.self, d);
    }
  }

  /** A node does not sync to one that is further from r. */
  lemma ParentLooksAway(net: Network, r: Addr, v: Addr, d: nat, p: Addr, s: ElectionState)
    requires 0 < d && AtDist(net, r, v, d) && Settled(net, r, p, d - 1, s)
    ensures s.sync != v
  {
    if d > 1 { BallGrows(net, r, d - 2, d - 1); }
    BallGrows(net, r, 0, d - 1);
  }

  /** A node that hears r is one hop away, and r is the one closer neighbour. */
  lemma OneHop(net: Network, r: Addr, v: Addr, d: nat)
    requires v in net.hears && r in net.hears[v]
    ensures AtDist(net, r, v, 1) && Parents(net, r, v, 1) == {r}
    ensures AtDist(net, r, v, d) ==> d == 1
  {
    assert r in net.hears[v] * Ball(net, r, 0);
    if AtDist(net, r, v, d) && d > 1 { BallGrows(net, r, 1, d - 1); }
  }

  /** No neighbour of v is nearer to r than the closer ones. */
  lemma ClaimNotNearer(net: Network, r: Addr, v: Addr, d: nat, p: Addr, h: nat)
    requires v in net.hears && 0 < d && AtDist(net, r, v, d) && p in net.hears[v] && p in Ball(net, r, h)
    ensures h >= d - 1
    ensures h == d - 1 ==> p in Parents(net, r, v, d)
  {
    HearingExtendsBall(net, r, p, v, h);
    if h + 1 < d { BallGrows(net, r, h + 1, d - 1); }
    var e: nat := if d > 1 then d - 2 else 0;
    if d > 1 && p in Ball(net, r, e) { HearingExtendsBall(net, r, p, v, e); }
  }

  /** The closer neighbour of greatest address beats every other eligible one. */
  lemma BestParentWins(net: Network, r: Addr, k: nat, d: nat, v: Addr, t: map<Addr, ElectionState>, w: Addr, p: Addr)
    requires Dominates(net, r) && v in net.hears && t.Keys == net.hears[v] && Filed(t)
    requires 0 < d <= TREE_MAX_HEIGHT && AtDist(net, r, v, d) && p in t && p != w && Genuine(net, p, t[p])
    requires 12 + Patience(net, r, d) <= k && Level(net, r, k, p, t[p])
    requires w in Parents(net, r, v, d) && forall q :: q in Parents(net, r, v, d) ==> q <= w
    requires Settled(net, r, w, d - 1, t[w])
    ensures Precedes(t[p], t[w])
  {
    hide Genuine, Walk, Ball, AtDist;
    TrueClaim(net, r, p, t[p]);
    if Below(Own(t[p].masterCounter, t[p].masterMetric), net.own[r]) {
      assert Precedes(t[p], t[w]);
    } else if d == 1 && !StrictlyBest(net, r) {
      assert w == r by { OnlyRootIsHere(net, r, w); }
    } else if !Rival(net, r, p, t[p]) {
      ClaimNotNearer(net, r, v, d, p, t[p].height);
    }
  }

  lemma OnlyRootIsHere(net: Network, r: Addr, w: Addr)
    requires AtDist(net, r, w, 0)
    ensures w == r
  {}

  /** Against genuine neighbours whose closer ones have settled, a node settles. */
  lemma ChildSettles(net: Network, r: Addr, k: nat, d: nat, s: ElectionState, t: map<Addr, ElectionState>)
    requires Dominates(net, r) && RunInput(net, s, t)
    requires 0 < d <= TREE_MAX_HEIGHT && AtDist(net, r, s.self, d) && 12 + Patience(net, r, d) <= k
    requires TableAt(Claims(net, r), k, t)
    ensures Settled(net, r, s.self, d, Elect(s, View(t)))
  {
    var v, m := s.self, View(t);
    ParentExists(net, r, v, d);
    var w := Greatest(Parents(net, r, v, d));
    assert Level(net, r, k, w, t[w]) && Settled(net, r, w, d - 1, t[w]);
    assert Wins(s, m, w) by {
      ParentEligible(net, r, d, s, w, m[w]);
      forall p | p in m && p != w && Eligible(v, m[p]) ensures Precedes(m[p].state, m[w].state) {
        assert Level(net, r, k, p, t[p]);
        BestParentWins(net, r, k, d, v, t, w, p);
      }
    }
    WinnerAdopted(s, m, w);
    AdoptSettles(net, r, d, s, w, t[w]);
  }

  /** Nobody tied with r stays a root, so their claims age like false ones. */
  lemma RivalsAge(net: Network, r: Addr, k: nat, s: ElectionState, t: map<Addr, ElectionState>)
    requires Dominates(net, r) && RunInput(net, s, t)
    requires k >= 12 && TableAt(Claims(net, r), k, t)
    ensures var q := Elect(s, View(t)); Rival(net, r, s.self, q) ==> !StrictlyBest(net, r) && k - 12 <= q.height
  {
    var v, m := s.self, View(t);
    var q := Elect(s, m);
    RunPurges(net, r, k, s, t);
    if Rival(net, r, v, q) {
      TrueRival(net, r, v, q);
      if k > 12 {
        ElectIsOutcome(s, m);
        if StaysRoot(s, m) {
          RivalIsDemoted(net, r, k, s, t);
        } else {
          var w :| Wins(s, m, w) && q == Adopt(s, m[w].state);
          assert Level(net, r, k, w, t[w]);
          AdoptedRival(net, r, k, s, w, t[w]);
        }
      }
    }
  }

  /** A true claim as good as r's is about r itself if r is strictly best. */
  lemma TrueRival(net: Network, r: Addr, v: Addr, s: ElectionState)
    requires r in net.own && Genuine(net, v, s) && Rival(net, r, v, s)
    ensures !StrictlyBest(net, r)
  {
    if s.master == r { WalkInBall(net, r, v, s.height); }
  }

  lemma AdoptedRival(net: Network, r: Addr, k: nat, s: ElectionState, w: Addr, m: ElectionState)
    requires r in net.own && s.self in net.hears && w in net.hears[s.self] && k >= 13 && Level(net, r, k, w, m)
    requires Rival(net, r, s.self, Adopt(s, m))
    ensures k - 12 <= m.height + 1 == Adopt(s, m).height
  {
    hide Genuine, Settled, AtDist, Ball;
    if !Rival(net, r, w, m) { HearingExtendsBall(net, r, w, s.self, m.height); }
  }

  lemma RivalIsDemoted(net: Network, r: Addr, k: nat, s: ElectionState, t: map<Addr, ElectionState>)
    requires Dominates(net, r) && RunInput(net, s, t) && StaysRoot(s, View(t))
    requires k >= 13 && TableAt(Claims(net, r), k, t)
    ensures !Rival(net, r, s.self, ResetSelf(s))
  {
    var v := s.self;
    if Rival(net, r, v, ResetSelf(s)) {
      assert GivesWay(net, r, v) && r in t;
      assert Level(net, r, k, r, t[r]) && AtDist(net, r, r, 0);
      assert Settled(net, r, r, 0, t[r]);
      assert Eligible(v, View(t)[r]);
    }
  }

  lemma AdoptSettles(net: Network, r: Addr, d: nat, s: ElectionState, w: Addr, m: ElectionState)
    requires Identity(net, s.self, s) && 0 < d <= TREE_MAX_HEIGHT
    requires w in Parents(net, r, s.self, d) && forall q :: q in Parents(net, r, s.self, d) ==> q <= w
    requires Settled(net, r, w, d - 1, m)
    ensures Settled(net, r, s.self, d, Adopt(s, m))
  {}

  lemma WinnerAdopted(s: ElectionState, m: map<Addr, Candidate>, w: Addr)
    requires Keyed(m) && Wins(s, m, w)
    ensures Elect(s, m) == Adopt(s, m[w].state)
  {
    assert IsOutcome(s, m, Adopt(s, m[w].state));
    OutcomeUnique(s, m, Elect(s, m), Adopt(s, m[w].state));
  }

  lemma ParentExists(net: Network, r: Addr, v: Addr, d: nat)
    requires v in net.own && 0 < d && AtDist(net, r, v, d)
    ensures Parents(net, r, v, d) != {}
  {
    assert net.hears[v] * Ball(net, r, d - 1) != {};
    var p :| p in net.hears[v] * Ball(net, r, d - 1);
    if d > 1 && p in Ball(net, r, d - 2) { HearingExtendsBall(net, r, p, v, d - 2); }
    assert p in Parents(net, r, v, d);
  }

  lemma {:induction false} Greatest(s: set<Addr>) returns (m: Addr)
    requires s != {}
    ensures m in s && forall x :: x in s ==> x <= m
    decreases |s|
  {
    m :| m in s;
    if s != {m} {
      var rest := s - {m};
      var n := Greatest(rest);
      assert forall x :: x in s ==> x == m || x in rest;
      if n > m { m := n; }
    }
  }

  /** Running against a table of level k gives a state of level k + 1. */
  lemma RunRaisesLevel(net: Network, r: Addr, k: nat, s: ElectionState, t: map<Addr, ElectionState>)
    requires Dominates(net, r) && RunInput(net, s, t)
    requires TableAt(Claims(net, r), k, t)
    ensures Level(net, r, k + 1, s.self, Elect(s, View(t)))
  {
    var q := Elect(s, View(t));
    RunPurges(net, r, k, s, t);
    if k >= 12 {
      RivalsAge(net, r, k, s, t);
      forall d: nat | 13 + Patience(net, r, d) <= k + 1 && d <= TREE_MAX_HEIGHT && AtDist(net, r, s.self, d)
        ensures Settled(net, r, s.self, d, q)
      {
        if d == 0 {
          OnlyRootIsHere(net, r, s.self);
          RootStays(net, r, k, s, t);
        } else {
          ChildSettles(net, r, k, d, s, t);
        }
      }
    }
  }

  lemma ClaimsAreLadder(net: Network, r: Addr)
    requires Dominates(net, r)
    ensures IsLadder(net, Claims(net, r))
  {
    var lvl := Claims(net, r);
    forall k: nat, s: ElectionState, t: map<Addr, ElectionState> | RunInput(net, s, t) && TableAt(lvl, k, t)
      ensures lvl(k + 1, s.self, Elect(s, View(t)))
    {
      RunRaisesLevel(net, r, k, s, t);
    }
  }

  ghost function ClaimLadder(net: Network, r: Addr): (x: Ladder)
    requires Dominates(net, r)
    ensures x.net == net && x.lvl == Claims(net, r)
  {
    ClaimsAreLadder(net, r);
    RungsOn(net, Claims(net, r))
  }

  // ----- the theorems

  /** 12 phases flush all false information and elect r; one more is needed
      only if some node advertises height 2^32 - 1, whose successor wraps to 0. */
  ghost function Flush(c: Config): (n: nat)
    ensures 12 <= n <= 13
  {
    if forall v :: v in c.st ==> c.st[v].height < POW32 - 1 then 12 else 13
  }

  lemma StartLevel(net: Network, r: Addr, c: Config)
    ensures AtLevel(Claims(net, r), 13 - Flush(c), c)
  {}

  /** The configuration after some phases and then any further steps. */
  ghost function Later(net: Network, c: Config, phases: seq<Stretch>, rest: seq<Step>): (r: Config)
    requires ValidConfig(net, c)
    ensures ValidConfig(net, r)
  {
    Exec(net, ExecPhases(net, c, phases), rest)
  }

  lemma AfterPhases(net: Network, r: Addr, c: Config, phases: seq<Stretch>, rest: seq<Step>, v: Addr)
    requires ValidConfig(net, c) && Dominates(net, r) && v in net.own && ArePhases(net, phases)
    ensures Level(net, r, 13 - Flush(c) + |phases|, v, Later(net, c, phases, rest).st[v])
  {
    hide ClaimLadder, IsLadder, Elect, Exec, ExecPhases, Settled, Genuine, AtDist, IsPhase, Flush, Dominates, Identity;
    var x, k := ClaimLadder(net, r), 13 - Flush(c);
    StartLevel(net, r, c);
    PhasesLift(x, k, c, phases);
    LevelKept(x, k + |phases|, ExecPhases(net, c, phases), rest);
    assert x.lvl(k + |phases|, v, Later(net, c, phases, rest).st[v]);
  }

  /** Self-stabilisation. From any configuration, after Flush + Patience phases under
      any interleaving, a node d <= 10 hops from the dominating node r has reached its
      one final state, and keeps it whatever steps follow. */
  lemma Stabilises(net: Network, r: Addr, c: Config, phases: seq<Stretch>, rest: seq<Step>, v: Addr, d: nat)
    requires ValidConfig(net, c) && Dominates(net, r)
    requires v in net.own && d <= TREE_MAX_HEIGHT && AtDist(net, r, v, d)
    requires ArePhases(net, phases) && |phases| >= Flush(c) + Patience(net, r, d)
    ensures Settled(net, r, v, d, Later(net, c, phases, rest).st[v])
  {
    hide Elect, Later, Genuine, IsPhase, Flush, Settled, AtDist, Dominates, Identity;
    AfterPhases(net, r, c, phases, rest, v);
  }

  /** The height limit decides exactly who follows r: the nodes within 10 hops. */
  lemma FollowersAreWithinTenHops(net: Network, r: Addr, c: Config, phases: seq<Stretch>, rest: seq<Step>, v: Addr)
    requires ValidConfig(net, c) && Dominates(net, r) && v in net.own
    requires ArePhases(net, phases) && |phases| >= Flush(c) + Patience(net, r, TREE_MAX_HEIGHT)
    ensures Later(net, c, phases, rest).st[v].master == r <==> v in Ball(net, r, 10)
  {
    hide Elect, Later, Genuine, IsPhase, Flush, Settled, AtDist, Dominates, Identity;
    AfterPhases(net, r, c, phases, rest, v);
    SettledIffNear(net, r, 13 - Flush(c) + |phases|, v, Later(net, c, phases, rest).st[v]);
  }

  lemma SettledIffNear(net: Network, r: Addr, k: nat, v: Addr, s: ElectionState)
    requires k >= 13 + Patience(net, r, TREE_MAX_HEIGHT) && Level(net, r, k, v, s)
    ensures s.master == r <==> v in Ball(net, r, TREE_MAX_HEIGHT)
  {
    if s.master == r {
      WalkInBall(net, r, v, s.height);
      BallGrows(net, r, s.height, TREE_MAX_HEIGHT);
    }
    if v in Ball(net, r, TREE_MAX_HEIGHT) {
      var d := DistOf(net, r, v, TREE_MAX_HEIGHT);
      assert Patience(net, r, d) <= Patience(net, r, TREE_MAX_HEIGHT);
      assert Settled(net, r, v, d, s);
    }
  }

  lemma {:induction false} DistOf(net: Network, r: Addr, v: Addr, n: nat) returns (d: nat)
    requires v in Ball(net, r, n)
    ensures d <= n && AtDist(net, r, v, d)
    decreases n
  {
    d := n;
    if n > 0 && v in Ball(net, r, n - 1) { d := DistOf(net, r, v, n - 1); }
  }

  /** Full mesh with ties: everybody syncs directly to the node with the
      greatest counter, metric and address. */
  lemma MeshAgrees(net: Network, r: Addr, c: Config, phases: seq<Stretch>, rest: seq<Step>, v: Addr)
    requires ValidConfig(net, c) && r in net.own && BestOfMesh(net, r) && v in net.own
    requires ArePhases(net, phases) && |phases| >= Flush(c) + 1
    ensures var s := Later(net, c, phases, rest).st[v];
            s.master == r && s.sync == r && s.height == if v == r then 0 else 1
  {
    hide Elect, Later, Genuine, IsPhase, Flush;
    SpecialCases(net, r);
    AfterPhases(net, r, c, phases, rest, v);
    var s := Later(net, c, phases, rest).st[v];
    if v == r {
      assert Settled(net, r, r, 0, s) by { assert AtDist(net, r, r, 0); }
    } else {
      OneHop(net, r, v, 1);
      assert Settled(net, r, v, 1, s);
    }
  }

  // ----- simultaneous rounds

  /** The same bound counted in simultaneous rounds. */
  lemma RoundsStabilise(net: Network, r: Addr, st: map<Addr, ElectionState>, n: nat, v: Addr, d: nat)
    requires ValidStates(net, st) && Dominates(net, r) && v in st
    requires d <= TREE_MAX_HEIGHT && AtDist(net, r, v, d)
    requires n >= Patience(net, r, d) + Flush(Config(st, map[]))
    ensures Settled(net, r, v, d, Rounds(net, st, n)[v])
  {
    hide ClaimLadder, IsLadder, Elect, Rounds;
    var j := 13 - Flush(Config(st, map[]));
    RoundsLift(ClaimLadder(net, r), j, st, n);
    assert Claims(net, r)(j + n, v, Rounds(net, st, n)[v]);
  }

  // ----- stable configurations

  /** v's state is the outcome of its own run against its neighbours' states. */
  ghost predicate StableAt(net: Network, st: map<Addr, ElectionState>, v: Addr)
    requires ValidStates(net, st) && v in st
  {
    st[v] == Elect(st[v], View(Around(net, st, v)))
  }

  ghost predicate Stable(net: Network, st: map<Addr, ElectionState>)
    requires ValidStates(net, st)
  {
    forall v {:trigger StableAt(net, st, v)} :: v in st ==> StableAt(net, st, v)
  }

  ghost function Follow(st: map<Addr, ElectionState>, v: Addr, n: nat): (u: Addr) {
    if n == 0 then v else var p := Follow(st, v, n - 1); if p in st then st[p].sync else p
  }

  /** In a stable configuration a node is its own root, or one below its sync master. */
  lemma StableStep(net: Network, st: map<Addr, ElectionState>, v: Addr)
    requires ValidStates(net, st) && Stable(net, st) && v in st
    ensures st[v].height <= TREE_MAX_HEIGHT
    ensures st[v].height == 0 ==> st[v] == ResetSelf(st[v])
    ensures st[v].height > 0 ==>
              var p := st[v].sync;
              && p in net.hears[v] && p in st && st[p].height == st[v].height - 1 && st[p].sync != v
              && st[p].master == st[v].master && st[p].masterCounter == st[v].masterCounter
              && st[p].masterMetric == st[v].masterMetric
  {
    assert StableAt(net, st, v);
    StableHeight(net, st, v);
    var t := Around(net, st, v);
    ElectIsOutcome(st[v], View(t));
    if !StaysRoot(st[v], View(t)) {
      var w :| Wins(st[v], View(t), w) && st[v] == Adopt(st[v], View(t)[w].state);
      StableHeight(net, st, w);
      AdoptedParent(st[v], w, View(t)[w]);
    }
  }

  lemma AdoptedParent(s: ElectionState, w: Addr, c: Candidate)
    requires Eligible(s.self, c) && s == Adopt(s, c.state) && c.state.self == w && c.state.height <= TREE_MAX_HEIGHT
    ensures s.height > 0 && s.sync == w && c.state.height == s.height - 1 && c.state.sync != s.self
    ensures c.state.master == s.master
    ensures c.state.masterCounter == s.masterCounter && c.state.masterMetric == s.masterMetric
  {}

  lemma StableHeight(net: Network, st: map<Addr, ElectionState>, v: Addr)
    requires ValidStates(net, st) && Stable(net, st) && v in st
    ensures st[v].height <= TREE_MAX_HEIGHT
  {
    assert StableAt(net, st, v);
    var t := Around(net, st, v);
    ElectIsOutcome(st[v], View(t));
    if !StaysRoot(st[v], View(t)) {
      var w :| Wins(st[v], View(t), w) && st[v] == Adopt(st[v], View(t)[w].state);
    }
  }

  /** Every stable configuration, on any topology, is a forest: following sync
      masters n <= height steps strictly descends, and after exactly `height` <= 10
      steps it reaches a root whose own values everybody on the way advertises. */
  lemma {:induction false} StableIsForest(net: Network, st: map<Addr, ElectionState>, v: Addr, n: nat)
    requires ValidStates(net, st) && Stable(net, st) && v in st && n <= st[v].height
    ensures var u := Follow(st, v, n);
            && u in st && st[u].height == st[v].height - n <= TREE_MAX_HEIGHT
            && (n > 0 ==> u != v)
            && st[u].master == st[v].master
            && st[u].masterCounter == st[v].masterCounter && st[u].masterMetric == st[v].masterMetric
            && (n == st[v].height ==> u == st[v].master && st[u] == ResetSelf(st[u]))
    decreases n
  {
    if n > 0 {
      StableIsForest(net, st, v, n - 1);
      StableStep(net, st, Follow(st, v, n - 1));
    }
    StableStep(net, st, Follow(st, v, n));
  }

  /** With a dominating node there is only one stable state for each node within 10 hops. */
  lemma StableIsSettled(net: Network, r: Addr, st: map<Addr, ElectionState>, v: Addr, d: nat)
    requires ValidStates(net, st) && Stable(net, st) && Dominates(net, r)
    requires v in st && d <= TREE_MAX_HEIGHT && AtDist(net, r, v, d)
    ensures Settled(net, r, v, d, st[v])
  {
    hide Elect, Rounds;
    StableRounds(net, st, 14 + d);
    RoundsStabilise(net, r, st, 14 + d, v, d);
  }

  lemma {:induction false} StableRounds(net: Network, st: map<Addr, ElectionState>, n: nat)
    requires ValidStates(net, st) && Stable(net, st)
    ensures Rounds(net, st, n) == st
    decreases n
  {
    if n > 0 {
      assert forall v :: v in st ==> StableAt(net, st, v);
      assert Round(net, st) == st by { hide Elect; }
      StableRounds(net, st, n - 1);
    }
  }

  /** Three nodes in a line, all with the initial counter and metric. */
  ghost function LineNet(): (net: Network)
    ensures ValidNet(net)
  {
    var o := Own(COUNTER_INIT, METRIC_INIT);
    var own: map<Addr, Own> := map[1 := o, 2 := o, 3 := o];
    var hears: map<Addr, set<Addr>> := map[1 := {2}, 2 := {1, 3}, 3 := {2}];
    Net(own, hears)
  }

  ghost function LineStates(): (st: map<Addr, ElectionState>)
    ensures ValidStates(LineNet(), st)
  {
    map[1 := InitState(1), 2 := Adopt(InitState(2), InitState(3)), 3 := InitState(3)]
  }

  /** Without a strictly best node, and off the full mesh, agreement can fail for
      good: the ends of the line, two hops apart, keep different masters. */
  lemma TiesCanSplit()
    ensures Stable(LineNet(), LineStates())
    ensures 3 in Ball(LineNet(), 1, 2)
    ensures LineStates()[1].master == 1 && LineStates()[3].master == 3
  {
    var net, st := LineNet(), LineStates();
    forall v | v in st ensures StableAt(net, st, v) {
      if v == 2 { LineMiddle(); } else { LineEnd(v); }
    }
    assert 1 in net.hears[2] * Ball(net, 1, 0);
    HearingExtendsBall(net, 1, 2, 3, 1);
  }

  lemma LineMiddle()
    ensures StableAt(LineNet(), LineStates(), 2)
  {
    var st := LineStates();
    var m := View(Around(LineNet(), st, 2));
    assert Wins(st[2], m, 3);
    WinnerAdopted(st[2], m, 3);
  }

  lemma LineEnd(v: Addr)
    requires v == 1 || v == 3
    ensures StableAt(LineNet(), LineStates(), v)
  {
    var st := LineStates();
    var m := View(Around(LineNet(), st, v));
    assert StaysRoot(st[v], m);
    ElectIsOutcome(st[v], m);
  }
}
