/** The network model and the code of one node meet: its delivery step is a frame
    sent and parsed, its run step the election over a peer table, and what it
    converges to is the tree along which clocks are kept. */
module EndToEnd {
  import opened Types
  import opened Election
  import opened PeerModel
  import opened Sync
  import opened Tx
  import opened Rx
  import opened RoundTrip
  import Network
  import Stabilisation
  import Convergence
  import Node
  import SyncTree

  /** Parsing a neighbour's action frame files exactly the state that the network's
      delivery step hands over, whatever was filed before. */
  lemma FrameIsDelivery(net: Network.Network, c: Network.Config, l: Network.Link,
                        s: Sender, kind: ActionType, sent: u64, p: PeerInfo, n: RxNode, now: u64)
    requires Network.ValidConfig(net, c) && l in c.heard
    requires ValidSender(s) && EncLength(s.enc) == 2 && s.election == c.st[l.src]
    requires Timed(n.sync) && n.sync.presenceMode == PRESENCE_MODE && PeerModel.Filed(l.src, p)
    ensures |ActionBody(s, kind, sent)| >= 16
    ensures ParseTlvs(ActionBody(s, kind, sent)[16..], p, n, l.src, now).peer.election
              == Network.Next(net, c, Network.Deliver(l)).heard[l]
  {
    hide ActionBody, ParseTlvs, Synced;
    assert Network.Identity(net, l.src, c.st[l.src]);
    ActionRoundTrip(s, kind, sent, p, n, l.src, now);
  }

  /** The election a node runs over its table is the network's run step, when the
      table holds what was last heard from each neighbour and all are valid. */
  lemma ElectionIsRun(net: Network.Network, c: Network.Config, v: Addr, t: Table)
    requires Network.ValidConfig(net, c) && v in c.st
    requires t.peers.Keys == net.hears[v]
    requires forall p :: p in t.peers ==> t.peers[p].isValid && t.peers[p].election == c.heard[Network.Link(p, v)]
    ensures Keyed(Node.Candidates(t))
    ensures Elect(c.st[v], Node.Candidates(t)) == Network.Next(net, c, Network.Run(v)).st[v]
  {
    hide Elect;
    assert Node.Candidates(t) == Network.View(Network.Table(net, c, v));
  }

  // ----- which frames make a peer valid

  /** What is filed about src before a frame of it arrives. */
  function Before(t: Table, src: Addr): (p: PeerInfo) { if src in t.peers then t.peers[src] else NewPeer(src) }

  /** A frame of src makes its peer valid exactly if it has sent a MIF by then and says a
      version and a device class; it is reported exactly when it turns valid. */
  lemma FrameMakesValid(t: Table, src: Addr, s: Sender, kind: ActionType, sent: u64, now: u64,
                        e: ElectionState, sync: SyncState, code: int, sync': SyncState, t': Table)
    requires ValidTable(t) && Standard(sync) && ValidSender(s) && EncLength(s.enc) == 2
    requires |ActionBody(s, kind, sent)| >= 16
    requires Parsed(DoAdd(t, src, now), e, sync, ActionBody(s, kind, sent)[16..], kind, src, now, code, sync', t')
    ensures code == RX_OK && t'.peers.Keys == t.peers.Keys + {src}
    ensures var was := Before(t, src);
            var already := was.isValid || (was.sentMif && was.devclass > 0 && was.version > 0);
            var complete := (was.sentMif || kind == Mif) && s.version > 0 && s.devClass > 0;
            && (t'.peers[src].isValid <==> already || complete)
            && t'.log == if t'.peers[src].isValid && !was.isValid then t.log + [Added(src)] else t.log
    ensures src !in t.peers ==> (t'.peers[src].isValid <==> kind == Mif && s.version > 0 && s.devClass > 0)
    ensures t'.peers[src].lastUpdate == now && forall a :: a in t.peers && a != src ==> t'.peers[a] == t.peers[a]
  {
    hide ActionBody, ParseTlvs, Synced;
    var u := DoAdd(t, src, now);
    ActionRoundTrip(s, kind, sent, u.peers[src], RxNode(e, sync), src, now);
  }

  // ----- runs of whole nodes

  /** A node as its code keeps it. */
  datatype Host = Host(election: ElectionState, sync: SyncState, table: Table)

  /** A neighbour's action frame arrives, or a node cleans up and runs its election. */
  datatype Event =
    | Frame(link: Network.Link, sender: Sender, kind: ActionType, sent: u64, now: u64)
    | CleanUp(v: Addr, now: u64)

  /** The frame of the sender is received by h, which then is g. */
  ghost predicate Receives(h: Host, src: Addr, s: Sender, kind: ActionType, sent: u64, now: u64, g: Host) {
    && g.election == h.election && ValidSender(s) && EncLength(s.enc) == 2 && |ActionBody(s, kind, sent)| >= 16
    && exists code :: Parsed(DoAdd(h.table, src, now), h.election, h.sync, ActionBody(s, kind, sent)[16..],
                             kind, src, now, code, g.sync, g.table)
  }

  /** The clean-up finds that every peer was heard in time, and the election is run. */
  ghost predicate Cleans(h: Host, now: u64, g: Host) {
    && (forall a :: a in h.table.peers ==> !Expires(h.table, Node.Cutoff(now, Node.PEERS_DEFAULT_TIMEOUT), a))
    && DoExpire(h.table, Node.Cutoff(now, Node.PEERS_DEFAULT_TIMEOUT), g.table)
    && g.sync == h.sync && ValidTable(g.table) && g.election == Elect(h.election, Node.Candidates(g.table))
  }

  type World = map<Addr, Host>

  ghost predicate WorldNext(net: Network.Network, w: World, e: Event, r: World) {
    match e
    case Frame(l, s, kind, sent, now) =>
      && l in Network.LinksOf(net) && l.src in w && l.dst in w && l.dst in r && r == w[l.dst := r[l.dst]]
      && s.election == w[l.src].election && Receives(w[l.dst], l.src, s, kind, sent, now, r[l.dst])
    case CleanUp(v, now) => v in w && v in r && r == w[v := r[v]] && Cleans(w[v], now, r[v])
  }

  /** v's table holds exactly the neighbours that v hears, all valid. */
  ghost predicate Ready(net: Network.Network, v: Addr, h: Host) {
    && v in net.hears && Network.Identity(net, v, h.election) && Standard(h.sync)
    && ValidTable(h.table) && h.table.peers.Keys == net.hears[v]
    && forall p :: p in h.table.peers ==> h.table.peers[p].isValid
  }

  ghost predicate ValidWorld(net: Network.Network, w: World) {
    w.Keys == net.own.Keys && forall v :: v in w ==> Ready(net, v, w[v])
  }

  /** The configuration of the network that the nodes are in. */
  ghost function ConfigOf(net: Network.Network, w: World): (c: Network.Config)
    requires ValidWorld(net, w)
    ensures Network.ValidConfig(net, c)
  {
    LinksAreFiled(net, w);
    Network.Config(map v | v in w :: w[v].election,
                   map l | l in Network.LinksOf(net) :: w[l.dst].table.peers[l.src].election)
  }

  lemma LinksAreFiled(net: Network.Network, w: World)
    requires ValidWorld(net, w)
    ensures forall l :: l in Network.LinksOf(net) ==>
              && l.dst in w && l.src in w[l.dst].table.peers && w[l.dst].table.peers[l.src].election.self == l.src
  {
    forall l | l in Network.LinksOf(net)
      ensures l.dst in w && l.src in w[l.dst].table.peers && w[l.dst].table.peers[l.src].election.self == l.src
    {
      assert Ready(net, l.dst, w[l.dst]);
    }
  }

  function StepOf(e: Event): (s: Network.Step) {
    match e
    case Frame(l, _, _, _, _) => Network.Deliver(l)
    case CleanUp(v, _) => Network.Run(v)
  }

  /** What a frame of src does to a settled node. */
  lemma ReceivedFrame(net: Network.Network, v: Addr, h: Host, src: Addr,
                      s: Sender, kind: ActionType, sent: u64, now: u64, g: Host)
    requires Ready(net, v, h) && src in h.table.peers && s.election.self == src
    requires Receives(h, src, s, kind, sent, now, g)
    ensures Ready(net, v, g) && g.election == h.election
    ensures g.table.peers[src].election == s.election
    ensures forall p :: p in h.table.peers && p != src ==> g.table.peers[p] == h.table.peers[p]
  {
    hide ActionBody, ParseTlvs, Network.Identity, Synced;
    var t := DoAdd(h.table, src, now);
    var p := t.peers[src];
    var body := ActionBody(s, kind, sent)[16..];
    var code :| Parsed(t, h.election, h.sync, body, kind, src, now, code, g.sync, g.table);
    ActionRoundTrip(s, kind, sent, p, RxNode(h.election, h.sync), src, now);
    var r := ParseTlvs(body, p, RxNode(h.election, h.sync), src, now);
    assert Kept(p, RxNode(h.election, h.sync), r);
  }

  lemma CleanedUp(net: Network.Network, v: Addr, h: Host, now: u64, g: Host)
    requires Ready(net, v, h) && Cleans(h, now, g)
    ensures Ready(net, v, g) && g.table.peers == h.table.peers
    ensures g.election == Elect(h.election, Node.Candidates(h.table))
  {
    hide Elect;
    assert g.table.peers == h.table.peers;
    assert Node.Candidates(g.table) == Node.Candidates(h.table);
  }

  /** One node changes: its own state, and what was heard over the links to it. */
  lemma OneChanges(net: Network.Network, w: World, v: Addr, g: Host)
    requires ValidWorld(net, w) && v in w && Ready(net, v, g)
    ensures ValidWorld(net, w[v := g])
    ensures ConfigOf(net, w[v := g]).st == ConfigOf(net, w).st[v := g.election]
    ensures forall l :: l in Network.LinksOf(net) ==>
              && l in ConfigOf(net, w).heard && l in ConfigOf(net, w[v := g]).heard
              && (l.dst != v ==> ConfigOf(net, w[v := g]).heard[l] == ConfigOf(net, w).heard[l])
              && (l.dst == v ==> l.src in g.table.peers
                                 && ConfigOf(net, w[v := g]).heard[l] == g.table.peers[l.src].election)
  {
    hide Network.LinksOf, Ready, Network.Identity;
    LinksAreFiled(net, w);
    LinksAreFiled(net, w[v := g]);
  }

  lemma HeardOf(net: Network.Network, w: World, l: Network.Link)
    requires ValidWorld(net, w) && l in Network.LinksOf(net)
    ensures l.dst in w && l.src in w && Ready(net, l.dst, w[l.dst]) && w[l.src].election.self == l.src
    ensures l.src in w[l.dst].table.peers && ConfigOf(net, w).heard[l] == w[l.dst].table.peers[l.src].election
    ensures var st := ConfigOf(net, w).st;
            l.src in st && l.dst in st && st[l.src] == w[l.src].election && st[l.dst] == w[l.dst].election
  {
    LinksAreFiled(net, w);
    assert Ready(net, l.dst, w[l.dst]) && Ready(net, l.src, w[l.src]);
  }

  lemma FrameStep(net: Network.Network, w: World, e: Event, r: World)
    requires ValidWorld(net, w) && e.Frame? && WorldNext(net, w, e, r)
    ensures ValidWorld(net, r) && ConfigOf(net, r) == Network.Next(net, ConfigOf(net, w), StepOf(e))
  {
    hide Receives, ConfigOf, Network.LinksOf, Network.ValidConfig, ValidWorld, Ready;
    var l, v := e.link, e.link.dst;
    HeardOf(net, w, l);
    ReceivedFrame(net, v, w[v], l.src, e.sender, e.kind, e.sent, e.now, r[v]);
    OneChanges(net, w, v, r[v]);
    var c, d := ConfigOf(net, w), ConfigOf(net, r);
    SameLinks(net, c, d);
    assert d.st == c.st;
    forall k | k in d.heard ensures d.heard[k] == c.heard[l := c.st[l.src]][k] {
      HeardOf(net, w, k);
      HeardOf(net, r, k);
    }
    assert d.heard == c.heard[l := c.st[l.src]];
  }

  lemma SameLinks(net: Network.Network, c: Network.Config, d: Network.Config)
    requires Network.ValidConfig(net, c) && Network.ValidConfig(net, d)
    ensures c.heard.Keys == d.heard.Keys == Network.LinksOf(net)
  {}

  lemma CleanStep(net: Network.Network, w: World, e: Event, r: World)
    requires ValidWorld(net, w) && e.CleanUp? && WorldNext(net, w, e, r)
    ensures ValidWorld(net, r) && ConfigOf(net, r) == Network.Next(net, ConfigOf(net, w), StepOf(e))
  {
    var v := e.v;
    assert Ready(net, v, w[v]);
    hide Cleans, Elect, ConfigOf, Network.LinksOf, Network.ValidConfig, ValidWorld, Ready;
    hide Network.Next;
    CleanedUp(net, v, w[v], e.now, r[v]);
    OneChanges(net, w, v, r[v]);
    SameHeard(net, w, v, r[v]);
    RunOf(net, w, v);
  }

  lemma SameHeard(net: Network.Network, w: World, v: Addr, g: Host)
    requires ValidWorld(net, w) && v in w && Ready(net, v, g) && g.table.peers == w[v].table.peers
    ensures ValidWorld(net, w[v := g]) && ConfigOf(net, w[v := g]).heard == ConfigOf(net, w).heard
  {
    hide ConfigOf, Network.LinksOf, Network.ValidConfig, ValidWorld, Ready;
    OneChanges(net, w, v, g);
    var c, d := ConfigOf(net, w), ConfigOf(net, w[v := g]);
    SameLinks(net, c, d);
    forall k | k in d.heard ensures d.heard[k] == c.heard[k] { HeardOf(net, w, k); }
  }

  lemma RunOf(net: Network.Network, w: World, v: Addr)
    requires ValidWorld(net, w) && v in w
    ensures ValidTable(w[v].table) && v in ConfigOf(net, w).st
    ensures Network.Next(net, ConfigOf(net, w), Network.Run(v))
              == ConfigOf(net, w).(st := ConfigOf(net, w).st[v := Elect(w[v].election, Node.Candidates(w[v].table))])
  {
    hide Elect, Network.LinksOf;
    assert Ready(net, v, w[v]);
    LinksAreFiled(net, w);
    assert forall p :: p in net.hears[v] ==> Network.Link(p, v) in Network.LinksOf(net);
    ElectionIsRun(net, ConfigOf(net, w), v, w[v].table);
  }

  ghost predicate IsWorldRun(net: Network.Network, worlds: seq<World>, events: seq<Event>) {
    && |worlds| == |events| + 1 && ValidWorld(net, worlds[0])
    && forall i :: 0 <= i < |events| ==> WorldNext(net, worlds[i], events[i], worlds[i + 1])
  }

  function StepsOf(events: seq<Event>): (steps: seq<Network.Step>)
    ensures |steps| == |events|
  {
    seq(|events|, i requires 0 <= i < |events| => StepOf(events[i]))
  }

  /** A run of frames and clean-ups on the nodes' own tables is a run of the network. */
  lemma {:induction false} RunIsExec(net: Network.Network, worlds: seq<World>, events: seq<Event>)
    requires IsWorldRun(net, worlds, events)
    ensures ValidWorld(net, worlds[|events|])
    ensures ConfigOf(net, worlds[|events|]) == Network.Exec(net, ConfigOf(net, worlds[0]), StepsOf(events))
    decreases |events|
  {
    hide ValidWorld, WorldNext, Network.Next, Network.ValidConfig, ConfigOf;
    if events != [] {
      var e := events[0];
      assert WorldNext(net, worlds[0], e, worlds[0 + 1]);
      if e.Frame? { FrameStep(net, worlds[0], e, worlds[1]); } else { CleanStep(net, worlds[0], e, worlds[1]); }
      var later, rest := worlds[1..], events[1..];
      forall i | 0 <= i < |rest| ensures WorldNext(net, later[i], rest[i], later[i + 1]) {
        assert WorldNext(net, worlds[i + 1], events[i + 1], worlds[i + 1 + 1]);
      }
      RunIsExec(net, later, rest);
      assert StepsOf(events)[1..] == StepsOf(rest);
    }
  }

  // ----- convergence of whole nodes

  /** The steps of phases, one after the other. */
  ghost function Flat(phases: seq<Network.Stretch>): (steps: seq<Network.Step>)
    decreases |phases|
  {
    if phases == [] then [] else phases[0].first + phases[0].second + Flat(phases[1..])
  }

  lemma {:induction false} ExecAppend(
      net: Network.Network, c: Network.Config, a: seq<Network.Step>, b: seq<Network.Step>)
    requires Network.ValidConfig(net, c)
    ensures Network.Exec(net, c, a + b) == Network.Exec(net, Network.Exec(net, c, a), b)
    decreases |a|
  {
    hide Network.Next, Network.ValidConfig;
    if a == [] {
      assert a + b == b;
    } else {
      ExecAppend(net, Network.Next(net, c, a[0]), a[1..], b);
      assert (a + b)[1..] == a[1..] + b;
    }
  }

  lemma {:induction false} ExecFlat(net: Network.Network, c: Network.Config, phases: seq<Network.Stretch>)
    requires Network.ValidConfig(net, c)
    ensures Network.Exec(net, c, Flat(phases)) == Network.ExecPhases(net, c, phases)
    decreases |phases|
  {
    hide Network.Exec, Network.ValidConfig;
    if phases == [] {
      ExecNothing(net, c);
    } else {
      var ph := phases[0];
      ExecAppend(net, c, ph.first + ph.second, Flat(phases[1..]));
      ExecAppend(net, c, ph.first, ph.second);
      ExecFlat(net, Network.ExecPhase(net, c, ph), phases[1..]);
    }
  }

  lemma ExecNothing(net: Network.Network, c: Network.Config)
    requires Network.ValidConfig(net, c)
    ensures Network.Exec(net, c, []) == c
  {}

  /** Nodes whose tables hold their neighbours, exchanging real frames and cleaning up in
      any order, end up in the one stable configuration of their network. */
  lemma WorldConverges(net: Network.Network, worlds: seq<World>, events: seq<Event>,
                       phases: seq<Network.Stretch>, rest: seq<Network.Step>, v: Addr)
    requires IsWorldRun(net, worlds, events) && StepsOf(events) == Flat(phases) + rest
    requires Network.ArePhases(net, phases) && |phases| >= Convergence.Enough(net) && v in net.own
    ensures v in worlds[|events|] && worlds[|events|][v].election == Convergence.Limit(net)[v]
  {
    hide Network.Exec, Network.ExecPhases, Network.ArePhases, Network.ValidConfig;
    hide ConfigOf, WorldNext, Convergence.Limit;
    var c := ConfigOf(net, worlds[0]);
    RunIsExec(net, worlds, events);
    ExecAppend(net, c, Flat(phases), rest);
    ExecFlat(net, c, phases);
    Convergence.Converges(net, c, phases, rest);
    StateOf(net, worlds[|events|], v);
  }

  lemma StateOf(net: Network.Network, w: World, v: Addr)
    requires ValidWorld(net, w) && v in net.own
    ensures v in w && v in ConfigOf(net, w).st && ConfigOf(net, w).st[v] == w[v].election
  {}

  // ----- the tree that the election builds keeps time

  /** The nodes that follow r, and whom they sync to. */
  ghost function TreeOf(st: map<Addr, ElectionState>, r: Addr): (tree: SyncTree.Tree) {
    SyncTree.Tree(r, map v | v in st && st[v].master == r && st[v].height > 0 :: st[v].sync,
                  map v | v in st && st[v].master == r :: st[v].height)
  }

  lemma StableTree(net: Network.Network, st: map<Addr, ElectionState>, r: Addr)
    requires Network.ValidStates(net, st) && Stabilisation.Stable(net, st) && r in st && st[r].master == r
    ensures SyncTree.ValidTree(TreeOf(st, r))
  {
    hide Stabilisation.Stable, Network.Identity;
    forall v | v in st
      ensures st[v].height <= 10
      ensures st[v].height > 0 ==>
                st[v].sync in st && st[st[v].sync].height == st[v].height - 1 && st[st[v].sync].master == st[v].master
    {
      Stabilisation.StableStep(net, st, v);
    }
    Stabilisation.StableIsForest(net, st, r, st[r].height);
  }

  /** On every network and from every start: once the election has converged, every root r
      keeps the time of its followers. After any interleaving of sync frames along the
      sync masters, a follower whose time comes from r over h hops lags by less than h
      time units and shows the same EAW number outside them. */
  lemma {:induction false} LimitKeepsTime(
      net: Network.Network, c: Network.Config, phases: seq<Network.Stretch>, rest: seq<Network.Step>,
      r: Addr, clocks: map<Addr, SyncTree.Clock>, events: seq<SyncTree.SyncEvent>, v: Addr, t: int)
    requires Network.ValidConfig(net, c) && Network.ArePhases(net, phases) && |phases| >= Convergence.Enough(net)
    requires var st := Stabilisation.Later(net, c, phases, rest).st; r in st && st[r].master == r
    requires clocks.Keys == net.own.Keys && forall a :: a in clocks ==> Standard(clocks[a].sync)
    requires v in SyncTree.Informed(TreeOf(Stabilisation.Later(net, c, phases, rest).st, r), {r}, events)
    ensures var st := Stabilisation.Later(net, c, phases, rest).st;
            var tree := TreeOf(st, r);
            && SyncTree.ValidTree(tree) && SyncTree.ValidClocks(tree, clocks) && v in st && st[v].master == r
            && var after := SyncTree.SyncRun(tree, clocks, events);
               var lag := SyncTree.Lag(after[v], after[r]);
               && (lag == 0 || lag < 1024 * st[v].height)
               && ((t - SyncTree.Origin(after[r])) % EAW_USEC >= 1024 * st[v].height ==>
                     SyncTree.EawAt(after[v], t) == SyncTree.EawAt(after[r], t))
  {
    hide Stabilisation.Later, Convergence.Limit, Stabilisation.Stable, Network.Identity, Network.ArePhases;
    hide SyncTree.SyncRun, SyncTree.Lag, SyncTree.Origin, SyncTree.EawAt, SyncTree.Informed;
    Convergence.Converges(net, c, phases, rest);
    var st := Convergence.Limit(net);
    Convergence.StableIffLimit(net, st);
    StableTree(net, st, r);
    SyncTree.TreeKeepsTime(TreeOf(st, r), clocks, events, v, t);
  }
}
