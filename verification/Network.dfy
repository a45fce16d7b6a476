/** A network of nodes that advertise election states to whoever hears them and
    rerun the election on what they last heard, in any interleaving. */
module Network {
  import opened Types
  import opened Election

  /** A node's own counter and metric, which never change. */
  datatype Own = Own(counter: u32, metric: u32)

  /** hears[v] holds the nodes whose frames reach v; links need not be symmetric. */
  datatype Net = Net(own: map<Addr, Own>, hears: map<Addr, set<Addr>>)

  ghost predicate ValidNet(net: Net) {
    && net.hears.Keys == net.own.Keys
    && forall v :: v in net.hears ==> net.hears[v] <= net.own.Keys && v !in net.hears[v]
  }

  type Network = n: Net | ValidNet(n) ghost witness Net(map[], map[])

  /** dst hears src. */
  datatype Link = Link(src: Addr, dst: Addr)

  ghost function LinksOf(net: Network): (s: set<Link>)
    ensures forall p, v :: v in net.hears && p in net.hears[v] ==> Link(p, v) in s
    ensures forall l :: l in s ==> l.dst in net.hears && l.src in net.hears[l.dst]
  {
    set v, p | v in net.hears && p in net.hears[v] :: Link(p, v)
  }

  /** Each node's state, and on each link the last state received over it. */
  datatype Config = Config(st: map<Addr, ElectionState>, heard: map<Link, ElectionState>)

  ghost predicate Identity(net: Network, v: Addr, s: ElectionState) {
    v in net.own && s.self == v && s.selfCounter == net.own[v].counter && s.selfMetric == net.own[v].metric
  }

  /** Apart from identities, everything in a configuration is arbitrary. */
  ghost predicate ValidConfig(net: Network, c: Config)
  {
    && c.st.Keys == net.own.Keys && (forall v :: v in c.st ==> Identity(net, v, c.st[v]))
    && c.heard.Keys == LinksOf(net) && (forall l :: l in c.heard ==> c.heard[l].self == l.src)
  }

  ghost predicate Filed(t: map<Addr, ElectionState>) { forall p :: p in t ==> t[p].self == p }

  function View(t: map<Addr, ElectionState>): (m: map<Addr, Candidate>)
    ensures Filed(t) ==> Keyed(m)
  {
    map p | p in t :: Candidate(true, t[p])
  }

  /** The peer table of v. */
  ghost function Table(net: Network, c: Config, v: Addr): (t: map<Addr, ElectionState>)
    requires ValidConfig(net, c) && v in net.own
    ensures t.Keys == net.hears[v] && Filed(t)
  {
    map p | p in net.hears[v] :: c.heard[Link(p, v)]
  }

  /** A link delivers the current state of its source; or a node runs its election. */
  datatype Step = Deliver(link: Link) | Run(v: Addr)

  ghost function Next(net: Network, c: Config, step: Step): (r: Config)
    requires ValidConfig(net, c)
    ensures ValidConfig(net, r)
  {
    match step
    case Deliver(l) => if l in c.heard then c.(heard := c.heard[l := c.st[l.src]]) else c
    case Run(v) => if v in c.st then c.(st := c.st[v := Elect(c.st[v], View(Table(net, c, v)))]) else c
  }

  ghost function Exec(net: Network, c: Config, steps: seq<Step>): (r: Config)
    requires ValidConfig(net, c)
    ensures ValidConfig(net, r)
    decreases |steps|
  {
    if steps == [] then c else Exec(net, Next(net, c, steps[0]), steps[1..])
  }

  /** A stretch of a run in two parts. */
  datatype Stretch = Stretch(first: seq<Step>, second: seq<Step>)

  /** Every link delivers at least once, and after that every node runs at least
      once; any other steps may happen in between. */
  ghost predicate IsPhase(net: Network, ph: Stretch) {
    && (forall l :: l in LinksOf(net) ==> Deliver(l) in ph.first)
    && (forall v :: v in net.own ==> Run(v) in ph.second)
  }

  ghost predicate ArePhases(net: Network, phases: seq<Stretch>) {
    forall i :: 0 <= i < |phases| ==> IsPhase(net, phases[i])
  }

  ghost function ExecPhase(net: Network, c: Config, ph: Stretch): (r: Config)
    requires ValidConfig(net, c)
    ensures ValidConfig(net, r)
  {
    Exec(net, Exec(net, c, ph.first), ph.second)
  }

  ghost function ExecPhases(net: Network, c: Config, phases: seq<Stretch>): (r: Config)
    requires ValidConfig(net, c)
    ensures ValidConfig(net, r)
    decreases |phases|
  {
    if phases == [] then c else ExecPhases(net, ExecPhase(net, c, phases[0]), phases[1..])
  }

  // ----- levels: a ladder of predicates on advertised states

  /** lvl(k, v, s) says how trustworthy state s, advertised by v, is. */
  type Rungs = (nat, Addr, ElectionState) -> bool

  datatype RungsOn = RungsOn(net: Network, lvl: Rungs)

  /** Rung 0 always holds, rungs imply the ones below, and an election against a
      table on one rung gives a state on the next. */
  type Ladder = x: RungsOn | IsLadder(x.net, x.lvl) ghost witness RungsOn(Net(map[], map[]), (k, v, s) => true)

  ghost predicate TableAt(lvl: Rungs, k: nat, t: map<Addr, ElectionState>) {
    forall p :: p in t ==> lvl(k, p, t[p])
  }

  /** What an election of node s.self reads in a network. */
  ghost predicate RunInput(net: Network, s: ElectionState, t: map<Addr, ElectionState>) {
    Identity(net, s.self, s) && s.self in net.hears && t.Keys == net.hears[s.self] && Filed(t)
  }

  ghost predicate IsLadder(net: Network, lvl: Rungs) {
    && (forall v: Addr, s: ElectionState :: lvl(0, v, s))
    && (forall j: nat, k: nat, v: Addr, s: ElectionState :: j <= k && lvl(k, v, s) ==> lvl(j, v, s))
    && (forall k: nat, s: ElectionState, t: map<Addr, ElectionState> ::
          RunInput(net, s, t) && TableAt(lvl, k, t) ==> lvl(k + 1, s.self, Elect(s, View(t))))
  }

  /** States are on rung k; what was heard is on the rung before. */
  ghost predicate AtLevel(lvl: Rungs, k: nat, c: Config) {
    && (forall v :: v in c.st ==> lvl(k, v, c.st[v]))
    && (k > 0 ==> forall l :: l in c.heard ==> lvl(k - 1, l.src, c.heard[l]))
  }

  /** The links in `links` have delivered since rung k was reached. */
  ghost predicate Delivered(lvl: Rungs, k: nat, c: Config, links: set<Link>) {
    && AtLevel(lvl, k, c)
    && (forall l :: l in c.heard && l in links ==> lvl(k, l.src, c.heard[l]))
  }

  /** All links have delivered, and the nodes in `ran` have run after that. */
  ghost predicate HaveRun(lvl: Rungs, k: nat, c: Config, ran: set<Addr>) {
    && Delivered(lvl, k, c, c.heard.Keys)
    && (forall v :: v in c.st && v in ran ==> lvl(k + 1, v, c.st[v]))
  }

  ghost function LinksDone(links: set<Link>, step: Step): (s: set<Link>) {
    if step.Deliver? then links + {step.link} else links
  }

  ghost function RunsDone(ran: set<Addr>, step: Step): (s: set<Addr>) {
    if step.Run? then ran + {step.v} else ran
  }

  lemma RunClimbs(x: Ladder, k: nat, c: Config, v: Addr)
    requires ValidConfig(x.net, c) && v in c.st
    requires forall l :: l in c.heard ==> x.lvl(k, l.src, c.heard[l])
    ensures x.lvl(k + 1, v, Next(x.net, c, Run(v)).st[v])
  {
    var t := Table(x.net, c, v);
    forall p | p in t ensures x.lvl(k, p, t[p]) { assert Link(p, v) in c.heard; }
    assert RunInput(x.net, c.st[v], t) && TableAt(x.lvl, k, t);
  }

  lemma StepDelivers(x: Ladder, k: nat, c: Config, links: set<Link>, step: Step)
    requires ValidConfig(x.net, c) && Delivered(x.lvl, k, c, links)
    ensures Delivered(x.lvl, k, Next(x.net, c, step), LinksDone(links, step))
  {
    match step
    case Deliver(l) => if l in c.heard { DeliveryKeeps(x, k, c, links, l); }
    case Run(v) =>
      hide Elect;
      if v in c.st && k > 0 { RunClimbs(x, k - 1, c, v); }
  }

  lemma DeliveryKeeps(x: Ladder, k: nat, c: Config, links: set<Link>, l: Link)
    requires ValidConfig(x.net, c) && Delivered(x.lvl, k, c, links) && l in c.heard
    ensures Delivered(x.lvl, k, Next(x.net, c, Deliver(l)), links + {l})
  {
    hide Elect, Identity;
    assert x.lvl(k, l.src, c.st[l.src]);
    assert k > 0 ==> x.lvl(k - 1, l.src, c.st[l.src]);
  }

  lemma StepRuns(x: Ladder, k: nat, c: Config, ran: set<Addr>, step: Step)
    requires ValidConfig(x.net, c) && HaveRun(x.lvl, k, c, ran)
    ensures HaveRun(x.lvl, k, Next(x.net, c, step), RunsDone(ran, step))
  {
    StepDelivers(x, k, c, c.heard.Keys, step);
    if step.Run? && step.v in c.st { RunClimbs(x, k, c, step.v); }
  }

  lemma {:induction false} ExecDelivers(x: Ladder, k: nat, c: Config, links: set<Link>, steps: seq<Step>)
    returns (all: set<Link>)
    requires ValidConfig(x.net, c) && Delivered(x.lvl, k, c, links)
    ensures links <= all && forall l :: Deliver(l) in steps ==> l in all
    ensures Delivered(x.lvl, k, Exec(x.net, c, steps), all)
    decreases |steps|
  {
    all := links;
    if steps != [] {
      StepDelivers(x, k, c, links, steps[0]);
      all := ExecDelivers(x, k, Next(x.net, c, steps[0]), LinksDone(links, steps[0]), steps[1..]);
      assert forall s :: s in steps ==> s == steps[0] || s in steps[1..];
    }
  }

  lemma {:induction false} ExecRuns(x: Ladder, k: nat, c: Config, ran: set<Addr>, steps: seq<Step>)
    returns (all: set<Addr>)
    requires ValidConfig(x.net, c) && HaveRun(x.lvl, k, c, ran)
    ensures ran <= all && forall v: Addr :: Run(v) in steps ==> v in all
    ensures HaveRun(x.lvl, k, Exec(x.net, c, steps), all)
    decreases |steps|
  {
    all := ran;
    if steps != [] {
      StepRuns(x, k, c, ran, steps[0]);
      all := ExecRuns(x, k, Next(x.net, c, steps[0]), RunsDone(ran, steps[0]), steps[1..]);
      assert forall s :: s in steps ==> s == steps[0] || s in steps[1..];
    }
  }

  /** One phase, however interleaved, lifts the whole network one rung. */
  lemma PhaseLifts(x: Ladder, k: nat, c: Config, ph: Stretch)
    requires ValidConfig(x.net, c) && AtLevel(x.lvl, k, c) && IsPhase(x.net, ph)
    ensures AtLevel(x.lvl, k + 1, ExecPhase(x.net, c, ph))
  {
    hide Next, Elect, IsLadder, Identity;
    var links, ran: set<Addr> := {}, {};
    links := ExecDelivers(x, k, c, links, ph.first);
    ran := ExecRuns(x, k, Exec(x.net, c, ph.first), ran, ph.second);
  }

  /** No step ever takes the network down a rung. */
  lemma LevelKept(x: Ladder, k: nat, c: Config, steps: seq<Step>)
    requires ValidConfig(x.net, c) && AtLevel(x.lvl, k, c)
    ensures AtLevel(x.lvl, k, Exec(x.net, c, steps))
  {
    var links: set<Link> := {};
    links := ExecDelivers(x, k, c, links, steps);
  }

  /** Each phase lifts the network one rung. */
  lemma {:induction false} PhasesLift(x: Ladder, k: nat, c: Config, phases: seq<Stretch>)
    requires ValidConfig(x.net, c) && AtLevel(x.lvl, k, c) && ArePhases(x.net, phases)
    ensures AtLevel(x.lvl, k + |phases|, ExecPhases(x.net, c, phases))
    decreases |phases|
  {
    hide ExecPhase, AtLevel, IsLadder, Identity, IsPhase;
    if phases != [] {
      PhaseLifts(x, k, c, phases[0]);
      PhasesLift(x, k + 1, ExecPhase(x.net, c, phases[0]), phases[1..]);
    }
  }

  // ----- simultaneous rounds

  ghost predicate ValidStates(net: Network, st: map<Addr, ElectionState>) {
    st.Keys == net.own.Keys && (forall v :: v in st ==> Identity(net, v, st[v]))
  }

  /** The peer table of v when everybody has just heard its neighbours. */
  ghost function Around(net: Network, st: map<Addr, ElectionState>, v: Addr): (t: map<Addr, ElectionState>)
    requires ValidStates(net, st) && v in net.hears
    ensures Filed(t)
  {
    map p | p in net.hears[v] :: st[p]
  }

  /** All nodes run at once against their neighbours' last states. */
  ghost function Round(net: Network, st: map<Addr, ElectionState>): (r: map<Addr, ElectionState>)
    requires ValidStates(net, st)
    ensures ValidStates(net, r)
  {
    map v | v in st :: Elect(st[v], View(Around(net, st, v)))
  }

  ghost function Rounds(net: Network, st: map<Addr, ElectionState>, n: nat): (r: map<Addr, ElectionState>)
    requires ValidStates(net, st)
    ensures ValidStates(net, r)
    decreases n
  {
    if n == 0 then st else Rounds(net, Round(net, st), n - 1)
  }

  ghost predicate AllOnRung(lvl: Rungs, k: nat, st: map<Addr, ElectionState>) {
    forall v :: v in st ==> lvl(k, v, st[v])
  }

  lemma RoundLifts(x: Ladder, k: nat, st: map<Addr, ElectionState>)
    requires ValidStates(x.net, st) && AllOnRung(x.lvl, k, st)
    ensures AllOnRung(x.lvl, k + 1, Round(x.net, st))
  {
    forall v | v in st ensures x.lvl(k + 1, v, Round(x.net, st)[v]) {
      var t := Around(x.net, st, v);
      assert RunInput(x.net, st[v], t) && TableAt(x.lvl, k, t);
    }
  }

  lemma {:induction false} RoundsLift(x: Ladder, j: nat, st: map<Addr, ElectionState>, n: nat)
    requires ValidStates(x.net, st) && AllOnRung(x.lvl, j, st)
    ensures AllOnRung(x.lvl, j + n, Rounds(x.net, st, n))
    decreases n
  {
    hide Elect, Round, IsLadder, Identity;
    if n > 0 {
      RoundLifts(x, j, st);
      RoundsLift(x, j + 1, Round(x.net, st), n - 1);
    }
  }
}
