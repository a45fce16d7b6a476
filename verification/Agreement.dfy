/** When all nodes agree on one master, exactly; and how long sync cycles can last. */
module Agreement {
  import opened Types
  import opened Election
  import opened Network
  import opened Stabilisation
  import opened Convergence

  // ----- agreement

  /** Every other node gives way to r, and nobody is more than 10 hops away. */
  ghost predicate Unites(net: Network, r: Addr) {
    Dominates(net, r) && net.own.Keys <= Ball(net, r, TREE_MAX_HEIGHT)
  }

  ghost predicate AllFollow(st: map<Addr, ElectionState>, r: Addr) { forall v :: v in st ==> st[v].master == r }

  /** A node whose master is r is within its height of r. */
  lemma {:induction false} FollowerIsNear(net: Network, st: map<Addr, ElectionState>, v: Addr)
    requires ValidStates(net, st) && Stable(net, st) && v in st
    ensures st[v].height <= TREE_MAX_HEIGHT && v in Ball(net, st[v].master, st[v].height)
    decreases st[v].height
  {
    hide Stable, Identity, Ball;
    StableStep(net, st, v);
    if st[v].height == 0 {
      InOwnBall(net, st, v);
    } else {
      var p := st[v].sync;
      FollowerIsNear(net, st, p);
      HearingExtendsBall(net, st[v].master, p, v, st[p].height);
    }
  }

  lemma InOwnBall(net: Network, st: map<Addr, ElectionState>, v: Addr)
    requires ValidStates(net, st) && v in st && st[v] == ResetSelf(st[v])
    ensures v in Ball(net, st[v].master, 0)
  {}

  /** A node that follows somebody else gives way to its master: it is below in
      counter or metric, or tied with a greater address that it hears itself. */
  lemma FollowerGivesWay(net: Network, st: map<Addr, ElectionState>, v: Addr)
    requires ValidStates(net, st) && Stable(net, st) && v in st && st[v].master != v
    ensures st[v].master in net.own && GivesWay(net, st[v].master, v)
  {
    var r := st[v].master;
    StableStep(net, st, v);
    StableIsForest(net, st, v, st[v].height);
    assert StableAt(net, st, v);
    var t := Around(net, st, v);
    ElectIsOutcome(st[v], View(t));
    hide Elect, Stable;
    assert r in st && Identity(net, r, st[r]);
    if !StaysRoot(st[v], View(t)) {
      var w :| Wins(st[v], View(t), w) && st[v] == Adopt(st[v], View(t)[w].state);
      StableStep(net, st, w);
      assert st[w].master == r && Precedes(ResetSelf(st[v]), st[w]);
    }
  }

  /** Exactly when all nodes end up with the same master, in the one stable
      configuration of any network. */
  lemma StableAgreement(net: Network, st: map<Addr, ElectionState>, r: Addr)
    requires ValidStates(net, st) && Stable(net, st) && r in net.own
    ensures AllFollow(st, r) <==> Unites(net, r)
  {
    hide Stable, Identity, Ball, GivesWay;
    if AllFollow(st, r) {
      forall v | v in net.own ensures v in Ball(net, r, TREE_MAX_HEIGHT) && (v != r ==> GivesWay(net, r, v)) {
        FollowerIsNear(net, st, v);
        BallGrows(net, r, st[v].height, TREE_MAX_HEIGHT);
        if v != r { FollowerGivesWay(net, st, v); }
      }
    }
    if Unites(net, r) {
      forall v | v in st ensures st[v].master == r {
        var d := DistOf(net, r, v, TREE_MAX_HEIGHT);
        StableIsSettled(net, r, st, v, d);
      }
    }
  }

  /** Whatever the start and the interleaving: after Enough phases all nodes have
      master r for good if r unites the network, and otherwise they never do again. */
  lemma RunsAgree(net: Network, c: Config, phases: seq<Stretch>, rest: seq<Step>, r: Addr)
    requires ValidConfig(net, c) && ArePhases(net, phases) && |phases| >= Enough(net) && r in net.own
    ensures AllFollow(Later(net, c, phases, rest).st, r) <==> Unites(net, r)
  {
    hide Later, Limit, Unites, Stable, Identity, IsPhase;
    Converges(net, c, phases, rest);
    StableIffLimit(net, Limit(net));
    StableAgreement(net, Limit(net), r);
  }

  /** Three nodes in a line with the initial counter and metric split in every run. */
  lemma LineSplits(c: Config, phases: seq<Stretch>, rest: seq<Step>)
    requires ValidConfig(LineNet(), c) && ArePhases(LineNet(), phases) && |phases| >= Enough(LineNet())
    ensures var st := Later(LineNet(), c, phases, rest).st;
            1 in st && 3 in st && st[1].master == 1 && st[3].master == 3
  {
    hide Later, Limit, Stable, IsPhase, Identity;
    Converges(LineNet(), c, phases, rest);
    TiesCanSplit();
    StableIffLimit(LineNet(), LineStates());
  }

  // ----- cycles

  /** Following sync masters n > 0 steps leads back only to where it started at a root. */
  lemma StableHasNoCycle(net: Network, st: map<Addr, ElectionState>, v: Addr, n: nat)
    requires ValidStates(net, st) && Stable(net, st) && v in st && n > 0
    ensures Follow(st, v, n) == v ==> st[v] == ResetSelf(st[v])
  {
    hide Stable, Identity, Follow;
    StableStep(net, st, v);
    if n <= st[v].height {
      StableIsForest(net, st, v, n);
    } else if st[v].height > 0 {
      StableIsForest(net, st, v, st[v].height);
      RootRests(st, v, st[v].height, n);
    }
  }

  lemma {:induction false} RootRests(st: map<Addr, ElectionState>, v: Addr, m: nat, n: nat)
    requires m <= n && Follow(st, v, m) in st && st[Follow(st, v, m)].sync == Follow(st, v, m)
    ensures Follow(st, v, n) == Follow(st, v, m)
    decreases n
  {
    if m < n { RootRests(st, v, m, n - 1); }
  }

  /** No cycle of any length survives Enough phases, on any network. */
  lemma CyclesVanish(net: Network, c: Config, phases: seq<Stretch>, rest: seq<Step>, v: Addr, n: nat)
    requires ValidConfig(net, c) && ArePhases(net, phases) && |phases| >= Enough(net) && v in net.own && n > 0
    ensures var st := Later(net, c, phases, rest).st; Follow(st, v, n) == v ==> st[v] == ResetSelf(st[v])
  {
    hide Later, Limit, Stable, Identity, IsPhase, Follow;
    Converges(net, c, phases, rest);
    StableIffLimit(net, Limit(net));
    StableHasNoCycle(net, Limit(net), v, n);
  }

  /** With a dominating node they are gone sooner: as soon as a node d hops away has
      settled, following sync masters leads to r in exactly d steps. */
  lemma {:induction false} SettledLeadsToRoot(
      net: Network, r: Addr, c: Config, phases: seq<Stretch>, rest: seq<Step>, v: Addr, d: nat, i: nat)
    requires ValidConfig(net, c) && Dominates(net, r)
    requires v in net.own && d <= TREE_MAX_HEIGHT && AtDist(net, r, v, d) && i <= d
    requires ArePhases(net, phases) && |phases| >= Flush(c) + Patience(net, r, d)
    ensures var st := Later(net, c, phases, rest).st;
            var u := Follow(st, v, i);
            && u in st && AtDist(net, r, u, d - i) && Settled(net, r, u, d - i, st[u])
            && (i == d ==> u == r)
    decreases i
  {
    hide Later, Dominates, Flush, Identity, IsPhase, Ball;
    var st := Later(net, c, phases, rest).st;
    if i > 0 {
      SettledLeadsToRoot(net, r, c, phases, rest, v, d, i - 1);
      assert Follow(st, v, i) == st[Follow(st, v, i - 1)].sync;
    }
    var u := Follow(st, v, i);
    Stabilises(net, r, c, phases, rest, u, d - i);
    if i == d { OnlyRootIsHere(net, r, u); }
  }

  /** Two nodes that hear each other. */
  ghost function PairNet(): (net: Network)
  {
    var own: map<Addr, Own> := map[1 := Own(COUNTER_INIT, METRIC_INIT), 2 := Own(COUNTER_INIT, METRIC_INIT)];
    Net(own, map[1 := {2}, 2 := {1}])
  }

  /** A record of v that names a vanished master, three hops away over somebody else. */
  function Stale(v: Addr): (s: ElectionState) {
    InitState(v).(master := 9, sync := 8, height := 3, masterCounter := 1)
  }

  ghost function StaleConfig(): (c: Config) {
    Config(map[1 := InitState(1), 2 := InitState(2)], map[Link(1, 2) := Stale(1), Link(2, 1) := Stale(2)])
  }

  lemma StaleIsValid()
    ensures ValidConfig(PairNet(), StaleConfig())
    ensures StaleConfig().st == map[1 := InitState(1), 2 := InitState(2)]
  {}

  lemma AdoptsStale(v: Addr, p: Addr)
    requires v != p && v != 8
    ensures Filed(map[p := Stale(p)]) && Elect(InitState(v), View(map[p := Stale(p)])) == Adopt(InitState(v), Stale(p))
  {
    var m := View(map[p := Stale(p)]);
    assert Wins(InitState(v), m, p);
    WinnerAdopted(InitState(v), m, p);
  }

  /** Cycles do arise, even between two nodes: the rejection of peers that sync to the
      node itself reads what was heard, and both records are out of date. */
  lemma CyclesArise()
    ensures ValidConfig(PairNet(), StaleConfig())
    ensures var st := Exec(PairNet(), StaleConfig(), [Run(1), Run(2)]).st;
            && 1 in st && 2 in st && st[1].sync == 2 && st[2].sync == 1
            && st[1].master == st[2].master == 9 && st[1].height == st[2].height == 4
  {
    hide Elect, Next, Adopt, Stale, InitState, StaleConfig, PairNet, Identity;
    StaleIsValid();
    var net, c := PairNet(), StaleConfig();
    var d := Next(net, c, Run(1));
    StaleRun(c, 1, 2);
    StaleRun(d, 2, 1);
    assert [Run(1), Run(2)][1..] == [Run(2)] && [Run(2)][1..] == [];
    assert Exec(net, d, [Run(2)]) == Next(net, d, Run(2));
    AdoptedStale(1, 2);
    AdoptedStale(2, 1);
  }

  lemma StaleRun(c: Config, v: Addr, p: Addr)
    requires ValidConfig(PairNet(), c) && c.heard == StaleConfig().heard
    requires (v == 1 && p == 2) || (v == 2 && p == 1)
    requires v in c.st && c.st[v] == InitState(v)
    ensures Next(PairNet(), c, Run(v)) == c.(st := c.st[v := Adopt(InitState(v), Stale(p))])
  {
    AdoptsStale(v, p);
    hide Elect, Adopt, Stale, InitState;
    assert Table(PairNet(), c, v) == map[p := Stale(p)];
  }

  lemma AdoptedStale(v: Addr, p: Addr)
    ensures var q := Adopt(InitState(v), Stale(p)); q.sync == p && q.master == 9 && q.height == 4
  {}

  /** What v last heard from everybody is what they say now. */
  ghost predicate UpToDate(net: Network, c: Config, v: Addr)
    requires ValidConfig(net, c) && v in net.own
  {
    forall p :: p in net.hears[v] ==> c.heard[Link(p, v)] == c.st[p]
  }

  /** With up-to-date records a run never makes two nodes sync to each other. */
  lemma NoPairFromCurrent(net: Network, c: Config, v: Addr)
    requires ValidConfig(net, c) && v in net.own && UpToDate(net, c, v)
    ensures var st := Next(net, c, Run(v)).st; st[v].sync != v ==> st[v].sync in st && st[st[v].sync].sync != v
  {
    var t := Table(net, c, v);
    var w := RunCases(c.st[v], t);
    if w.Some? { assert t[w.value] == c.st[w.value]; }
  }

  /** Three nodes that hear each other in a ring: 1 hears 2, 2 hears 3 and 3 hears 1. */
  ghost function RingNet(): (net: Network)
  {
    var o := Own(COUNTER_INIT, METRIC_INIT);
    Net(map[1 := o, 2 := o, 3 := o], map[1 := {2}, 2 := {3}, 3 := {1}])
  }

  /** A state that names the vanished master 9. */
  function Echo(v: Addr, sync: Addr, height: u32): (s: ElectionState) {
    InitState(v).(master := 9, sync := sync, height := height, masterCounter := 1)
  }

  /** 1 follows 2, 2 follows 3, and 3 followed somebody who has left. */
  ghost function RingConfig(): (c: Config) {
    Config(map[1 := Echo(1, 2, 5), 2 := Echo(2, 3, 4), 3 := Echo(3, 8, 3)],
           map[Link(2, 1) := Echo(2, 3, 4), Link(3, 2) := Echo(3, 8, 3), Link(1, 3) := Echo(1, 2, 5)])
  }

  /** Longer cycles arise even when every record is up to date: one run closes the ring. */
  lemma RingCloses()
    ensures ValidConfig(RingNet(), RingConfig())
    ensures forall v :: v in RingNet().own ==> UpToDate(RingNet(), RingConfig(), v)
    ensures var st := Next(RingNet(), RingConfig(), Run(3)).st; st[1].sync == 2 && st[2].sync == 3 && st[3].sync == 1
  {
    hide Elect, Echo, Adopt, Identity, ValidConfig, UpToDate, Next, RingNet;
    RingIsValid();
    RingRun();
    forall v | v in RingNet().own ensures UpToDate(RingNet(), RingConfig(), v) { RingUpToDate(v); }
    EchoIs(1, 2, 5);
    EchoIs(2, 3, 4);
    AdoptsEcho();
  }

  lemma RingRun()
    requires ValidConfig(RingNet(), RingConfig())
    ensures Next(RingNet(), RingConfig(), Run(3)).st == RingConfig().st[3 := Adopt(Echo(3, 8, 3), Echo(1, 2, 5))]
  {
    RingTable();
    AdoptsEcho();
    hide Elect, Echo, Adopt, Identity, ValidConfig, RingNet, Table;
  }

  lemma EchoIs(v: Addr, sync: Addr, height: u32)
    ensures var s := Echo(v, sync, height);
            s.self == v && s.sync == sync && s.selfCounter == COUNTER_INIT && s.selfMetric == METRIC_INIT
  {}

  lemma AdoptsEcho()
    ensures var t := map[1 := Echo(1, 2, 5)];
            Filed(t) && Elect(Echo(3, 8, 3), View(t)) == Adopt(Echo(3, 8, 3), Echo(1, 2, 5))
    ensures Adopt(Echo(3, 8, 3), Echo(1, 2, 5)).sync == 1
  {
    var m := View(map[1 := Echo(1, 2, 5)]);
    assert Wins(Echo(3, 8, 3), m, 1);
    WinnerAdopted(Echo(3, 8, 3), m, 1);
  }

  lemma RingTable()
    requires ValidConfig(RingNet(), RingConfig())
    ensures Table(RingNet(), RingConfig(), 3) == map[1 := Echo(1, 2, 5)]
  {
    hide Echo, Identity, LinksOf;
  }

  lemma RingUpToDate(v: Addr)
    requires ValidConfig(RingNet(), RingConfig()) && v in RingNet().own
    ensures UpToDate(RingNet(), RingConfig(), v)
  {
    hide Echo, Identity, LinksOf;
  }

  lemma RingLinks()
    ensures LinksOf(RingNet()) == {Link(2, 1), Link(3, 2), Link(1, 3)}
    ensures RingConfig().heard.Keys == {Link(2, 1), Link(3, 2), Link(1, 3)}
  {
    hide Echo;
  }

  lemma RingIsValid()
    ensures ValidConfig(RingNet(), RingConfig())
  {
    EchoIs(1, 2, 5);
    EchoIs(2, 3, 4);
    EchoIs(3, 8, 3);
    RingLinks();
    hide Echo, LinksOf;
  }
}
