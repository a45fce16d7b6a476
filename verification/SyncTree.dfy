/** Clocks of several nodes: what one sync frame achieves, and how far clocks can
    drift apart along a sync tree. */
module SyncTree {
  import opened Types
  import opened Arith
  import opened Sync

  // ----- one node after one update

  /** Right after taking over an advertised position the sync error is zero exactly
      when the implied EAW number is in range; in particular for every countdown of 1..64. */
  lemma ErrorAfterUpdate(now: u64, timeToNextAw: u16, awCounter: u16, s: SyncState)
    requires Standard(s)
    ensures var r := UpdateLast(now, timeToNextAw, awCounter, s);
            SyncErrorTu(now, timeToNextAw, awCounter, r) == 0
            <==> 0 <= awCounter / 4 + (64 - timeToNextAw) / 64 < EAW_CYCLE
    ensures 1 <= timeToNextAw <= 64 ==>
              SyncErrorTu(now, timeToNextAw, awCounter, UpdateLast(now, timeToNextAw, awCounter, s)) == 0
  {
    var r := UpdateLast(now, timeToNextAw, awCounter, s);
    PositionAfterUpdate(now, timeToNextAw, awCounter, s);
    ErrorForm(awCounter / 4, timeToNextAw);
    hide CurrentEaw, NextAwTu, UpdateLast;
  }

  lemma ErrorForm(eaw: nat, tu: nat)
    ensures var a := eaw + (64 - tu) / 64;
            var error := (eaw - a % EAW_CYCLE) * 4 * 16 - (tu - (64 - (64 - tu) % 64));
            error == 64 * (a - a % EAW_CYCLE) && (error == 0 <==> 0 <= a < EAW_CYCLE)
  {
    var a := eaw + (64 - tu) / 64;
    assert a % EAW_CYCLE == a <==> 0 <= a < EAW_CYCLE;
  }

  lemma PositionAfterUpdate(now: u64, timeToNextAw: u16, awCounter: u16, s: SyncState)
    requires Standard(s)
    ensures var r := UpdateLast(now, timeToNextAw, awCounter, s);
            && CurrentEaw(now, r) == (awCounter / 4 + (64 - timeToNextAw) / 64) % EAW_CYCLE
            && NextAwTu(now, r) == 64 - (64 - timeToNextAw) % 64
  {
    var r := UpdateLast(now, timeToNextAw, awCounter, s);
    var back, c := 64 - timeToNextAw, awCounter / 4;
    var j := EpochAfterUpdate(now, timeToNextAw, awCounter, s);
    WindowsAreFloors(now, r);
    hide CurrentEaw, NextAwTu, UpdateLast, CurrentAw, NextAwUs;
    var x := 1024 * back;
    DivShift(x, EAW_USEC, c + 281474976710656 * j);
    DivDiv(x, 1024, 64);
    DivShift(x, 1024, 0);
    DivShift(back / 64 + c, EAW_CYCLE, 17179869184 * j);
    DivShift(x, 1024, 64 * c + 18014398509481984 * j);
    DivShift(back, 64, c + 281474976710656 * j);
    DivShift(0, 1024, back);
  }

  /** Up to the 64-bit wrap, the new epoch lies the advertised position in the past. */
  lemma EpochAfterUpdate(now: u64, timeToNextAw: u16, awCounter: u16, s: SyncState) returns (j: int)
    requires Standard(s)
    ensures var r := UpdateLast(now, timeToNextAw, awCounter, s);
            && Standard(r) && r.awCounter == 4 * (awCounter / 4)
            && now - Epoch(r) == 1024 * (64 - timeToNextAw) + 65536 * (awCounter / 4) + POW64 * j
  {
    var x := 1024 * (64 - timeToNextAw);
    var y := x % POW64;
    var z := (now - y) % POW64;
    assert UpdateLast(now, timeToNextAw, awCounter, s).lastUpdate == z;
    j := -(x / POW64) + (now - y) / POW64;
    assert now - z == y + POW64 * ((now - y) / POW64);
    assert y == x - POW64 * (x / POW64);
  }

  // ----- nodes with clocks of equal rate

  /** A node whose clock reads `offset` at global time 0. */
  datatype Clock = Clock(offset: int, sync: SyncState)

  function Local(c: Clock, t: int): (now: u64) { (t + c.offset) % POW64 }

  /** Global time, modulo the counter cycle, at which the node's AW counter is zero. */
  function Origin(c: Clock): (us: nat)
    ensures us < CYCLE_USEC
  {
    (Epoch(c.sync) - c.offset) % CYCLE_USEC
  }

  function EawAt(c: Clock, t: int): (eaw: u16)
    requires Standard(c.sync)
  {
    CurrentEaw(Local(c, t), c.sync)
  }

  lemma LocalPosition(c: Clock, t: int) returns (j: int)
    ensures Local(c, t) - Epoch(c.sync) == t - Origin(c) + CYCLE_USEC * j
  {
    var e := Epoch(c.sync) - c.offset;
    assert e == CYCLE_USEC * (e / CYCLE_USEC) + Origin(c);
    var w := (t + c.offset) / POW64;
    assert Local(c, t) == t + c.offset - POW64 * w;
    j := -(e / CYCLE_USEC) - 17179869184 * w;
  }

  /** Windows in global time. */
  lemma WindowsFromOrigin(c: Clock, t: int)
    requires Standard(c.sync)
    ensures EawAt(c, t) == (t - Origin(c)) / EAW_USEC % EAW_CYCLE
    ensures CurrentAw(Local(c, t), c.sync) / 4 == EawAt(c, t)
    ensures NextAwTu(Local(c, t), c.sync) == 64 - (t - Origin(c)) / 1024 % 64
  {
    var j := LocalPosition(c, t);
    WindowsAreFloors(Local(c, t), c.sync);
    var x := t - Origin(c);
    hide Origin, Local, CurrentAw, NextAwTu, NextAwUs;
    DivShift(x, EAW_USEC, EAW_CYCLE * j);
    DivShift(x / EAW_USEC, EAW_CYCLE, j);
    DivShift(x, 1024, 1048576 * j);
    DivShift(x / 1024, 64, 16384 * j);
  }

  /** At global time t, child receives a sync frame that parent sends. */
  function SyncTo(child: Clock, parent: Clock, t: int): (r: Clock)
    requires Standard(parent.sync)
  {
    var now := Local(parent, t);
    child.(sync := UpdateLast(Local(child, t), NextAwTu(now, parent.sync), CurrentAw(now, parent.sync), child.sync))
  }

  /** One sync frame aligns two nodes up to the sender's position within its time
      unit: the child's windows start that much later. */
  lemma SyncAligns(child: Clock, parent: Clock, t: int)
    requires Standard(child.sync) && Standard(parent.sync)
    ensures var r := SyncTo(child, parent, t);
            Standard(r.sync) && Origin(r) == (Origin(parent) + (t - Origin(parent)) % 1024) % CYCLE_USEC
  {
    var now, x := Local(parent, t), t - Origin(parent);
    var tu, aw := NextAwTu(now, parent.sync), CurrentAw(now, parent.sync);
    WindowsFromOrigin(parent, t);
    var j := EpochAfterUpdate(Local(child, t), tu, aw, child.sync);
    var r := SyncTo(child, parent, t);
    var m, e := x / 1024 % 64, x / EAW_USEC;
    hide NextAwTu, CurrentAw, CurrentEaw, UpdateLast, EawAt;
    DivDiv(x, 1024, 64);
    assert x == EAW_USEC * e + 1024 * m + x % 1024;
    assert e == EAW_CYCLE * (e / EAW_CYCLE) + e % EAW_CYCLE;
    var w := (t + child.offset) / POW64;
    assert Local(child, t) == t + child.offset - POW64 * w;
    assert Epoch(r.sync) - child.offset
        == Origin(parent) + x % 1024 + CYCLE_USEC * (e / EAW_CYCLE - 17179869184 * (j + w));
    DivShift(Origin(parent) + x % 1024, CYCLE_USEC, e / EAW_CYCLE - 17179869184 * (j + w));
  }

  /** How far node c lags behind node d. */
  function Lag(c: Clock, d: Clock): (us: nat) { (Origin(c) - Origin(d)) % CYCLE_USEC }

  /** A node that lags by less than one EAW shows the same EAW number as the other
      one, except in the first `lag` microseconds of each of its EAWs. */
  lemma LagBoundsDisagreement(c: Clock, d: Clock, t: int)
    requires Standard(c.sync) && Standard(d.sync) && Lag(c, d) < EAW_USEC
    ensures EawAt(c, t) == EawAt(d, t) <==> (t - Origin(d)) % EAW_USEC >= Lag(c, d)
  {
    WindowsFromOrigin(c, t);
    WindowsFromOrigin(d, t);
    var z := (Origin(c) - Origin(d)) / CYCLE_USEC;
    assert Origin(c) - Origin(d) == CYCLE_USEC * z + Lag(c, d);
    hide EawAt, Origin, Lag;
    FloorLag(t - Origin(d), Lag(c, d), z);
  }

  lemma FloorLag(x: int, lag: nat, z: int)
    requires lag < EAW_USEC
    ensures (x - lag - CYCLE_USEC * z) / EAW_USEC % EAW_CYCLE == x / EAW_USEC % EAW_CYCLE <==> x % EAW_USEC >= lag
  {
    DivShift(x - lag, EAW_USEC, 0 - EAW_CYCLE * z);
    DivShift((x - lag) / EAW_USEC, EAW_CYCLE, -z);
    var q, r := x / EAW_USEC, x % EAW_USEC;
    if r >= lag {
      DivOf(x - lag, EAW_USEC, q, r - lag);
    } else {
      DivOf(x - lag, EAW_USEC, q - 1, r - lag + EAW_USEC);
      assert (q - 1) % EAW_CYCLE != q % EAW_CYCLE;
    }
  }

  /** After one sync frame sent at t0, sender and receiver agree on the EAW number at
      every instant except in the first (elapsed time mod 1024) microseconds of each
      of the sender's EAWs. */
  lemma OneFrameAligns(child: Clock, parent: Clock, t0: int, t: int)
    requires Standard(child.sync) && Standard(parent.sync)
    ensures var r := SyncTo(child, parent, t0);
            Standard(r.sync) && (EawAt(r, t) == EawAt(parent, t)
            <==> (t - Origin(parent)) % EAW_USEC >= (t0 - Origin(parent)) % 1024)
  {
    SyncAligns(child, parent, t0);
    var r := SyncTo(child, parent, t0);
    var o, rho := Origin(parent), (t0 - Origin(parent)) % 1024;
    hide SyncTo, Origin, EawAt;
    assert Lag(r, parent) == rho by {
      var z := (o + rho) / CYCLE_USEC;
      DivShift(rho, CYCLE_USEC, -z);
      DivOf(rho, CYCLE_USEC, 0, rho);
    }
    LagBoundsDisagreement(r, parent, t);
  }

  // ----- a whole sync tree

  /** Who syncs to whom, and how many hops each node is from the root. */
  datatype Tree = Tree(root: Addr, parent: map<Addr, Addr>, height: map<Addr, nat>)

  /** parent[v] is one hop closer; heights are bounded by the election. */
  ghost predicate ValidTree(tree: Tree) {
    && tree.root in tree.height && tree.height[tree.root] == 0 && tree.root !in tree.parent
    && (forall v :: v in tree.parent ==> v in tree.height && tree.parent[v] in tree.height)
    && (forall v :: v in tree.parent ==> tree.height[v] == tree.height[tree.parent[v]] + 1)
    && (forall v :: v in tree.height ==> tree.height[v] <= 10)
  }

  /** v receives a sync frame of its parent at global time t. */
  datatype SyncEvent = SyncEvent(v: Addr, t: int)

  ghost predicate ValidClocks(tree: Tree, clocks: map<Addr, Clock>) {
    tree.height.Keys <= clocks.Keys && forall v :: v in clocks ==> Standard(clocks[v].sync)
  }

  ghost function SyncStep(tree: Tree, clocks: map<Addr, Clock>, e: SyncEvent): (r: map<Addr, Clock>)
    requires ValidTree(tree) && ValidClocks(tree, clocks)
    ensures ValidClocks(tree, r)
  {
    if e.v in tree.parent then
      SyncAligns(clocks[e.v], clocks[tree.parent[e.v]], e.t);
      clocks[e.v := SyncTo(clocks[e.v], clocks[tree.parent[e.v]], e.t)]
    else clocks
  }

  ghost function SyncRun(tree: Tree, clocks: map<Addr, Clock>, events: seq<SyncEvent>): (r: map<Addr, Clock>)
    requires ValidTree(tree) && ValidClocks(tree, clocks)
    ensures ValidClocks(tree, r)
    decreases |events|
  {
    if events == [] then clocks else SyncRun(tree, SyncStep(tree, clocks, events[0]), events[1..])
  }

  /** The nodes whose time comes from the root: those that synced when their parent
      already had it. */
  ghost function Informed(tree: Tree, known: set<Addr>, events: seq<SyncEvent>): (s: set<Addr>)
    decreases |events|
  {
    if events == [] then known
    else
      var e := events[0];
      Informed(tree, if e.v in tree.parent && tree.parent[e.v] in known then known + {e.v} else known, events[1..])
  }

  /** Every informed node at height h lags the root by less than h time units, and
      what its parent has, it has. */
  ghost predicate Bounded(tree: Tree, clocks: map<Addr, Clock>, known: set<Addr>)
    requires ValidTree(tree) && ValidClocks(tree, clocks)
  {
    && tree.root in known && known <= tree.height.Keys
    && (forall v :: v in known && v in tree.parent ==> tree.parent[v] in known)
    && (forall v :: v in known ==> LagOk(tree, clocks, v))
  }

  ghost predicate LagOk(tree: Tree, clocks: map<Addr, Clock>, v: Addr)
    requires v in clocks && v in tree.height && tree.root in clocks
  {
    var lag := Lag(clocks[v], clocks[tree.root]);
    lag == 0 || lag < 1024 * tree.height[v]
  }

  lemma StepBounded(tree: Tree, clocks: map<Addr, Clock>, known: set<Addr>, e: SyncEvent)
    requires ValidTree(tree) && ValidClocks(tree, clocks) && Bounded(tree, clocks, known)
    ensures Bounded(tree, SyncStep(tree, clocks, e),
                    if e.v in tree.parent && tree.parent[e.v] in known then known + {e.v} else known)
  {
    var r := SyncStep(tree, clocks, e);
    hide Lag, SyncTo;
    if e.v in tree.parent {
      var p := tree.parent[e.v];
      if p in known {
        assert LagOk(tree, clocks, p);
        LagAdds(clocks[e.v], clocks[p], clocks[tree.root], e.t, tree.height[p]);
      }
      assert forall v :: v in known && v != e.v ==> LagOk(tree, clocks, v) && r[v] == clocks[v];
    }
  }

  /** A hop adds less than one time unit. */
  lemma LagAdds(child: Clock, parent: Clock, root: Clock, t: int, h: nat)
    requires Standard(child.sync) && Standard(parent.sync) && h < 10
    requires Lag(parent, root) == 0 || Lag(parent, root) < 1024 * h
    ensures Standard(SyncTo(child, parent, t).sync) && Lag(SyncTo(child, parent, t), root) < 1024 * (h + 1)
  {
    SyncAligns(child, parent, t);
    var o, p, rho := Origin(root), Origin(parent), (t - Origin(parent)) % 1024;
    var r := SyncTo(child, parent, t);
    hide SyncTo, Origin;
    var lag, z := (p - o) % CYCLE_USEC, (p - o) / CYCLE_USEC;
    var y := (p + rho) / CYCLE_USEC;
    assert Origin(r) - o == lag + rho + CYCLE_USEC * (z - y);
    DivShift(lag + rho, CYCLE_USEC, z - y);
    DivOf(lag + rho, CYCLE_USEC, 0, lag + rho);
  }

  lemma {:induction false} RunBounded(tree: Tree, clocks: map<Addr, Clock>, known: set<Addr>, events: seq<SyncEvent>)
    requires ValidTree(tree) && ValidClocks(tree, clocks) && Bounded(tree, clocks, known)
    ensures Bounded(tree, SyncRun(tree, clocks, events), Informed(tree, known, events))
    decreases |events|
  {
    hide SyncStep, Bounded;
    if events != [] {
      var e := events[0];
      StepBounded(tree, clocks, known, e);
      RunBounded(tree, SyncStep(tree, clocks, e),
                 if e.v in tree.parent && tree.parent[e.v] in known then known + {e.v} else known, events[1..]);
    }
  }

  /** Multi-hop clock bound. From any clocks, after any interleaving of sync frames,
      a node whose time comes from the root over h hops shows the root's EAW number at
      every instant except, at most, in the first h time units of each EAW. */
  lemma TreeKeepsTime(tree: Tree, clocks: map<Addr, Clock>, events: seq<SyncEvent>, v: Addr, t: int)
    requires ValidTree(tree) && ValidClocks(tree, clocks) && v in Informed(tree, {tree.root}, events)
    ensures v in tree.height
    ensures var r := SyncRun(tree, clocks, events);
            && (Lag(r[v], r[tree.root]) == 0 || Lag(r[v], r[tree.root]) < 1024 * tree.height[v])
            && ((t - Origin(r[tree.root])) % EAW_USEC >= 1024 * tree.height[v] ==>
                  EawAt(r[v], t) == EawAt(r[tree.root], t))
  {
    var known := {tree.root};
    assert LagOk(tree, clocks, tree.root);
    RunBounded(tree, clocks, known, events);
    var r := SyncRun(tree, clocks, events);
    assert LagOk(tree, r, v) && tree.height[v] <= 10;
    hide Lag, SyncRun, EawAt, Origin;
    LagBoundsDisagreement(r[v], r[tree.root], t);
  }
}
