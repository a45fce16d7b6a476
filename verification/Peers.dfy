/** The peer table: peer objects filed in the hash map under their address. */
module Peers {
  import opened Types
  import opened PeerModel
  import opened HashSpec
  import opened HashMaps

  datatype PeersStatus = PeersUpdate | PeersOk | PeersMissing | PeersInternal

  class Peer {
    const addr: Addr
    var info: PeerInfo

    constructor (addr: Addr)
      ensures this.addr == addr && info == NewPeer(addr)
    {
      this.addr := addr;
      info := NewPeer(addr);
    }
  }

  class PeerTable {
    const index: HashMap<Addr, Peer>
    /** The neighbour callbacks made so far. */
    var log: seq<Event>
    /** The table as a value. */
    ghost var model: Table

    ghost predicate Valid()
      reads this, index, index.table, index.contents.Values
    {
      && index.Valid() && ValidTable(model) && model.log == log && model.peers.Keys == index.contents.Keys
      && forall a :: a in index.contents ==> Linked(a)
    }

    /** The peer object filed under a is a's, and the value table shows its record. */
    ghost predicate Linked(a: Addr)
      requires a in index.contents
      reads this, index, index.contents.Values
    {
      index.contents[a].addr == a && a in model.peers && model.peers[a] == index.contents[a].info
    }

    constructor (hash: Addr -> nat, cap: nat, grant: nat -> bool)
      requires INITIAL_SIZE <= cap
      ensures Valid() && fresh(index) && fresh(index.table) && model == Table(map[], [])
    {
      index := new HashMap<Addr, Peer>(hash, cap, grant);
      log := [];
      model := Table(map[], []);
    }

    /** Overwrites the record of a peer in the table. */
    method Write(peer: Peer, info: PeerInfo)
      requires Valid() && peer.addr in index.contents && index.contents[peer.addr] == peer
      requires Filed(peer.addr, info)
      modifies this`model, peer
      ensures Valid() && peer.info == info
      ensures model == old(model).(peers := old(model).peers[peer.addr := info])
    {
      hide Represents, InChain, Filed;
      assert forall a :: a in index.contents ==> Linked(a);
      peer.info := info;
      model := model.(peers := model.peers[peer.addr := info]);
    }

    /** Marks a peer that has become complete as valid and reports it. */
    method Mark(peer: Peer)
      requires Valid() && peer.addr in index.contents && index.contents[peer.addr] == peer
      modifies this, peer
      ensures Valid() && model == DoMark(old(model), peer.addr)
    {
      hide Represents, InChain, Filed;
      assert Linked(peer.addr);
      if !peer.info.isValid && Complete(peer.info) {
        TouchKeepsFiled(peer.addr, peer.info, 0);
        Write(peer, peer.info.(isValid := true));
        log := log + [Added(peer.addr)];
        model := model.(log := log);
      }
    }

    /** A new peer was not filed: there was no room for it, with eight peers or more, and
        memory was refused. Records were lost, without reports, only if they were at risk. */
    ghost predicate Declined(addr: Addr, t: Table, before: Store<Addr, Peer>, asked: nat)
      requires |before.slots| > 0
      reads this, index
    {
      && addr !in t.peers && |t.peers| >= MAX_CHAIN_LENGTH && Room(index.hash, before, addr).None?
      && index.OutOfMemory(asked)
      && model == DoFail(t, model.peers.Keys)
      && (HashLoss.MayLose(index.hash, index.cap, before, addr) || model == t)
    }

    /** Creates or refreshes the record of addr and reports it once it is complete. */
    method Add(addr: Addr, now: u64) returns (status: PeersStatus)
      requires Valid()
      modifies this, index, index.table, index.contents.Values
      ensures Valid() && (index.table == old(index.table) || fresh(index.table))
      ensures fresh(index.contents.Values - old(index.contents.Values))
      ensures status == PeersUpdate <==> addr in old(index.contents)
      ensures status == PeersUpdate || status == PeersOk || status == PeersInternal
      ensures status != PeersInternal ==> model == DoAdd(old(model), addr, now)
      ensures status == PeersInternal ==> Declined(addr, old(model), old(index.Now()), old(index.used))
    {
      hide Represents, InChain, NewPeer, Filed, DoMark, DoAdd, DoFail, Room, HashLoss.MayLose, ValidTable;
      hide PeerTable.Linked, PeerTable.Declined;
      AddIsTouchThenMark(model, addr, now);
      var peer := Get(addr);
      if peer == null {
        status, peer := Enroll(addr, now);
        if status == PeersInternal { return; }
      } else {
        Own(addr);
        Refresh(peer, now);
        status := PeersUpdate;
      }
      Mark(peer);
    }

    /** The object filed under an address has that address. */
    lemma Own(addr: Addr)
      requires Valid() && addr in index.contents
      ensures index.contents[addr].addr == addr && addr in model.peers
    {
      assert Linked(addr);
    }

    /** Creates and files a new peer. */
    method Enroll(addr: Addr, now: u64) returns (status: PeersStatus, peer: Peer)
      requires Valid() && addr !in index.contents
      modifies this`model, index, index.table
      ensures Valid() && (index.table == old(index.table) || fresh(index.table)) && fresh(peer) && peer.addr == addr
      ensures status == PeersOk || status == PeersInternal
      ensures status == PeersOk ==> index.contents == old(index.contents)[addr := peer]
      ensures status == PeersOk ==>
                model == old(model).(peers := old(model).peers[addr := NewPeer(addr).(lastUpdate := now)])
      ensures status == PeersInternal ==>
                && SubMap(index.contents, old(index.contents))
                && Declined(addr, old(model), old(index.Now()), old(index.used))
    {
      hide Represents, InChain, NewPeer, Filed, Room, HashLoss.MayLose, ValidTable, PeerTable.Declined;
      NewPeerFiled(addr);
      peer := new Peer(addr);
      peer.info := peer.info.(lastUpdate := now);
      status := Store(peer);
    }

    method Refresh(peer: Peer, now: u64)
      requires Valid() && peer.addr in index.contents && index.contents[peer.addr] == peer
      modifies this`model, peer
      ensures Valid() && peer.addr in old(model).peers
      ensures var t := old(model);
              model == t.(peers := t.peers[peer.addr := t.peers[peer.addr].(lastUpdate := now)])
    {
      hide Represents, InChain, Filed;
      assert Linked(peer.addr);
      TouchKeepsFiled(peer.addr, peer.info, now);
      Write(peer, peer.info.(lastUpdate := now));
    }

    /** What filing a peer changes in the index. It fails only if the table has no room
        and memory is refused, and that costs records only if they are at risk. */
    method Insert(peer: Peer) returns (stored: Status)
      requires index.Valid() && peer.addr !in index.contents
      modifies index, index.table
      ensures index.Valid() && (index.table == old(index.table) || fresh(index.table))
      ensures stored == MapOk ==> index.contents == old(index.contents)[peer.addr := peer]
      ensures stored != MapOk ==>
                && !old(index.HasRoom(peer.addr)) && |old(index.contents)| >= MAX_CHAIN_LENGTH
                && index.OutOfMemory(old(index.used))
                && SubMap(index.contents, old(index.contents))
                && (!old(index.AtRisk(peer.addr)) ==> index.contents == old(index.contents))
    {
      hide Represents, InChain, Place, Room, HashLoss.MayLose;
      if |index.contents| < MAX_CHAIN_LENGTH { index.FewHaveRoom(peer.addr); }
      stored := index.Put(peer.addr, peer);
    }

    /** Files a new peer object. */
    method Store(peer: Peer) returns (status: PeersStatus)
      requires Valid() && peer.addr !in index.contents && Filed(peer.addr, peer.info)
      modifies this`model, index, index.table
      ensures Valid() && (index.table == old(index.table) || fresh(index.table))
      ensures status == PeersOk || status == PeersInternal
      ensures status == PeersOk ==> index.contents == old(index.contents)[peer.addr := peer]
      ensures status == PeersOk ==> model == old(model).(peers := old(model).peers[peer.addr := peer.info])
      ensures status == PeersInternal ==>
                && SubMap(index.contents, old(index.contents))
                && Declined(peer.addr, old(model), old(index.Now()), old(index.used))
    {
      hide Represents, InChain, Filed, Room, HashLoss.MayLose, ValidTable, DoFail, Shows;
      hide PeerTable.Valid, PeerTable.Linked;
      ghost var all, t := index.contents, model;
      ValidShows();
      SameSize(all, t);
      var stored := Insert(peer);
      if stored != MapOk {
        FailShows(all, t, index.contents);
        model := DoFail(t, index.contents.Keys);
        ValidShows();
        return PeersInternal;
      }
      StoreShows(all, t, peer);
      model := t.(peers := t.peers[peer.addr := peer.info]);
      ValidShows();
      return PeersOk;
    }

    lemma ValidShows()
      ensures Valid() <==> index.Valid() && ValidTable(model) && model.log == log && Shows(index.contents, model)
    {
      hide Represents, InChain, ValidTable;
    }

    method Remove(addr: Addr) returns (status: PeersStatus)
      requires Valid()
      modifies this, index, index.table
      ensures Valid() && index.table == old(index.table)
      ensures status == if addr in old(index.contents) then PeersOk else PeersMissing
      ensures model == DoRemove(old(model), addr)
    {
      hide Represents, InChain, Filed;
      assert forall a :: a in index.contents ==> Linked(a);
      var found, slot := index.Get(addr, true);
      model := model.(peers := model.peers - {addr});
      if found == MapMissing { return PeersMissing; }
      if slot.value.info.isValid {
        log := log + [Removed(addr)];
        model := model.(log := log);
      }
      return PeersOk;
    }

    method Get(addr: Addr) returns (peer: Peer?)
      requires Valid()
      ensures peer == if addr in index.contents then index.contents[addr] else null
    {
      hide Represents, InChain;
      var found, slot := index.Get(addr, false);
      peer := if found == MapOk then slot.value else null;
    }

    /** One turn of the sweep: reports and removes the peer in slot i if it has expired. */
    method ExpireAt(i: nat, before: u64) returns (expired: bool)
      requires index.Valid() && i < index.table.Length && index.table[i].Used?
      requires index.table[i].value.addr == index.table[i].key
      modifies this`log, index, index.table
      ensures index.Valid() && index.table == old(index.table)
      ensures var slot := old(index.table[..])[i]; var p := slot.value.info;
              && expired == (p.lastUpdate < before)
              && index.contents == (if expired then old(index.contents) - {slot.key} else old(index.contents))
              && index.table[..] == (if expired then old(index.table[..])[i := Free] else old(index.table[..]))
              && log == if expired && p.isValid then old(log) + [Removed(slot.key)] else old(log)
    {
      hide Represents, InChain;
      var peer := index.table[i].value;
      expired := peer.info.lastUpdate < before;
      if expired {
        if peer.info.isValid {
          log := log + [Removed(peer.addr)];
        }
        var _ := index.RemoveAt(i);
      }
    }

    /** Removes every peer not updated since `before`. */
    method RemoveBefore(before: u64)
      requires Valid()
      modifies this, index, index.table
      ensures Valid() && index.table == old(index.table)
      ensures DoExpire(old(model), before, model)
    {
      hide Represents, InChain, Filed, DoExpire;
      assert forall a :: a in index.contents ==> Linked(a);
      Sweep(before);
      model := Table(map a | a in index.contents :: model.peers[a], log);
    }

    /** The sweep of table t stands at slot i; its peer objects are as they were. */
    ghost predicate SweepAt(
        t: Table, slots: seq<Slot<Addr, Peer>>, all: map<Addr, Peer>, i: nat, before: u64, gone: seq<Addr>)
      reads this, index, index.table, all.Values
    {
      && index.Valid() && i <= index.table.Length && (i < index.table.Length ==> index.table[i].Used?)
      && Sweeping(t, slots, all, index.table[..], index.contents, i, before, gone)
      && log == t.log + RemovedAll(gone)
      && all.Keys == t.peers.Keys && forall a :: a in all ==> all[a].addr == a && all[a].info == t.peers[a]
    }

    /** One turn of the sweep, and on to the next slot in use. */
    method Turn(i: nat, before: u64, ghost t: Table, ghost slots: seq<Slot<Addr, Peer>>, ghost count: nat,
                ghost all: map<Addr, Peer>, ghost gone: seq<Addr>) returns (next: nat, ghost gone': seq<Addr>)
      requires SweepAt(t, slots, all, i, before, gone) && i < index.table.Length
      requires Represents(index.hash, slots, count, all)
      modifies this`log, index, index.table
      ensures i < next <= index.table.Length && index.table == old(index.table)
      ensures SweepAt(t, slots, all, next, before, gone')
    {
      hide Represents, InChain, Sweeping, RemovedAll;
      ghost var cur, contents, k := index.table[..], index.contents, index.table[i].key;
      SlotOfSweep(t, index.hash, slots, count, all, cur, contents, i, before, gone);
      var expired := ExpireAt(i, before);
      gone' := if expired && t.peers[k].isValid then gone + [k] else gone;
      RemovedMore(gone, k);
      next := index.NextInUse(i + 1);
      SweepTurn(t, index.hash, slots, count, all, cur, contents, i, before, gone,
                next, index.table[..], index.contents, gone');
    }

    /** The iteration over the table, removing as it goes. */
    method Sweep(before: u64)
      requires Valid()
      modifies this`log, index, index.table
      ensures index.Valid() && index.table == old(index.table)
      ensures SubMap(index.contents, old(index.contents)) && index.contents.Keys <= model.peers.Keys
      ensures DoExpire(model, before, Table(map a | a in index.contents :: model.peers[a], log))
    {
      hide Represents, InChain, Filed, Sweeping, DoExpire, RemovedAll;
      ghost var t, slots, count, all, gone: seq<Addr> := model, index.table[..], index.size, index.contents, [];
      assert forall a :: a in all ==> Linked(a);
      var i := index.NextInUse(0);
      SweepStart(t, slots, all, i, before);
      while i < index.table.Length
        invariant SweepAt(t, slots, all, i, before, gone) && index.table == old(index.table)
        decreases index.table.Length - i
      {
        i, gone := Turn(i, before, t, slots, count, all, gone);
      }
      SweepEnd(t, index.hash, slots, count, all, index.table[..], before, index.contents, gone);
    }
  }

  /** The value table shows the records of these peer objects. */
  ghost predicate Shows(contents: map<Addr, Peer>, t: Table)
    reads contents.Values
  {
    && t.peers.Keys == contents.Keys
    && forall a :: a in contents ==> contents[a].addr == a && t.peers[a] == contents[a].info
  }

  lemma SameSize(contents: map<Addr, Peer>, t: Table)
    requires Shows(contents, t)
    ensures |contents| == |t.peers| && contents.Keys == t.peers.Keys
  {
    assert |contents.Keys| == |t.peers.Keys|;
  }

  lemma StoreShows(contents: map<Addr, Peer>, t: Table, peer: Peer)
    requires ValidTable(t) && Shows(contents, t) && Filed(peer.addr, peer.info)
    ensures var r := t.(peers := t.peers[peer.addr := peer.info]);
            ValidTable(r) && Shows(contents[peer.addr := peer], r)
  {
    hide Filed;
  }

  lemma FailShows(contents: map<Addr, Peer>, t: Table, less: map<Addr, Peer>)
    requires ValidTable(t) && Shows(contents, t) && SubMap(less, contents)
    ensures var r := DoFail(t, less.Keys);
            ValidTable(r) && Shows(less, r) && r.log == t.log && r.peers.Keys == less.Keys
    ensures less == contents ==> DoFail(t, less.Keys) == t
  {
    hide Filed;
  }

  lemma NewPeerFiled(addr: Addr)
    ensures Filed(addr, NewPeer(addr)) && !NewPeer(addr).isValid && !Complete(NewPeer(addr))
    ensures forall now: u64 :: Filed(addr, NewPeer(addr).(lastUpdate := now))
  {}

  lemma TouchKeepsFiled(addr: Addr, p: PeerInfo, now: u64)
    requires Filed(addr, p)
    ensures Filed(addr, p.(lastUpdate := now)) && Filed(addr, p.(isValid := true))
  {}

  // ----- removal during iteration, on values

  /** After the slots before i: `left` remain, and `gone` have been reported. */
  ghost predicate Swept<V>(t: Table, slots: seq<Slot<Addr, V>>, i: nat, before: u64, left: set<Addr>, gone: seq<Addr>) {
    && Distinct(gone)
    && (forall a: Addr :: a in left <==> a in t.peers && !(Expires(t, before, a) && HeldBefore(slots, i, a)))
    && (forall a: Addr :: a in gone <==> Expires(t, before, a) && t.peers[a].isValid && HeldBefore(slots, i, a))
  }

  /** The sweep stands at slot i of `cur`, which was `slots` when it began. */
  ghost predicate Sweeping<V>(t: Table, slots: seq<Slot<Addr, V>>, all: map<Addr, V>, cur: seq<Slot<Addr, V>>,
                              contents: map<Addr, V>, i: nat, before: u64, gone: seq<Addr>) {
    && |cur| == |slots| && (forall j: nat :: i <= j < |slots| ==> cur[j] == slots[j])
    && SubMap(contents, all)
    && Swept(t, slots, i, before, contents.Keys, gone)
  }

  lemma RemovedMore(gone: seq<Addr>, k: Addr)
    ensures RemovedAll(gone + [k]) == RemovedAll(gone) + [Removed(k)]
  {}

  lemma SweepStart<V>(t: Table, slots: seq<Slot<Addr, V>>, all: map<Addr, V>, i: nat, before: u64)
    requires i <= |slots| && (forall j: nat :: j < i ==> slots[j].Free?) && all.Keys == t.peers.Keys
    ensures Sweeping(t, slots, all, slots, all, i, before, [])
    ensures RemovedAll([]) == []
  {}

  /** Slot i holds its key alone. */
  lemma OnlyHere<V>(hash: Addr -> nat, slots: seq<Slot<Addr, V>>, count: nat, all: map<Addr, V>, i: nat)
    requires Represents(hash, slots, count, all) && i < |slots| && slots[i].Used?
    ensures forall a: Addr :: HeldBefore(slots, i + 1, a) <==> HeldBefore(slots, i, a) || a == slots[i].key
    ensures !HeldBefore(slots, i, slots[i].key)
  {
    hide Represents;
    var k := slots[i].key;
    assert Holds(slots, i, k);
    forall j: nat | j < i && Holds(slots, j, k) ensures false { OneSlotPerKey(hash, slots, count, all, i, j, k); }
    HeldNext(slots, i);
    assert forall a :: Holds(slots, i, a) <==> a == k;
  }

  /** What the sweep finds in slot i is the peer filed there from the start. */
  lemma SlotOfSweep<V>(t: Table, hash: Addr -> nat, slots: seq<Slot<Addr, V>>, count: nat, all: map<Addr, V>,
                       cur: seq<Slot<Addr, V>>, contents: map<Addr, V>, i: nat, before: u64, gone: seq<Addr>)
    requires Represents(hash, slots, count, all)
    requires Sweeping(t, slots, all, cur, contents, i, before, gone) && i < |cur| && cur[i].Used?
    ensures cur[i].key in all && cur[i].value == all[cur[i].key]
  {
    hide Represents;
    UsedKeyInMap(hash, slots, count, all, i);
  }

  lemma SweepOne<V>(t: Table, slots: seq<Slot<Addr, V>>, i: nat, before: u64, left: set<Addr>, gone: seq<Addr>, k: Addr)
    requires Swept(t, slots, i, before, left, gone) && k in t.peers && !HeldBefore(slots, i, k)
    requires forall a: Addr :: HeldBefore(slots, i + 1, a) <==> HeldBefore(slots, i, a) || a == k
    ensures Swept(t, slots, i + 1, before,
                  if Expires(t, before, k) then left - {k} else left,
                  if Expires(t, before, k) && t.peers[k].isValid then gone + [k] else gone)
  {
    hide HeldBefore;
  }

  lemma SweepTurn<V>(t: Table, hash: Addr -> nat, slots: seq<Slot<Addr, V>>, count: nat, all: map<Addr, V>,
                     cur: seq<Slot<Addr, V>>, contents: map<Addr, V>, i: nat, before: u64, gone: seq<Addr>,
                     next: nat, cur': seq<Slot<Addr, V>>, contents': map<Addr, V>, gone': seq<Addr>)
    requires Represents(hash, slots, count, all) && all.Keys == t.peers.Keys
    requires Sweeping(t, slots, all, cur, contents, i, before, gone) && i < |cur| && cur[i].Used?
    requires var k := cur[i].key;
             && k in t.peers
             && cur' == (if Expires(t, before, k) then cur[i := Free] else cur)
             && contents' == (if Expires(t, before, k) then contents - {k} else contents)
             && gone' == if Expires(t, before, k) && t.peers[k].isValid then gone + [k] else gone
    requires i < next <= |cur'| && forall j: nat :: i < j < next ==> cur'[j].Free?
    ensures Sweeping(t, slots, all, cur', contents', next, before, gone')
  {
    hide Represents, InChain, Swept, HeldBefore, Expires;
    assert cur[i] == slots[i];
    OnlyHere(hash, slots, count, all, i);
    assert forall j: nat :: i < j < |slots| ==> cur'[j] == slots[j];
    SweepOne(t, slots, i, before, contents.Keys, gone, cur[i].key);
    assert contents'.Keys == if Expires(t, before, cur[i].key) then contents.Keys - {cur[i].key} else contents.Keys;
    SweepSkip(t, slots, i + 1, next, before, contents'.Keys, gone');
  }

  lemma SweepSkip<V>(t: Table, slots: seq<Slot<Addr, V>>, i: nat, j: nat, before: u64, left: set<Addr>, gone: seq<Addr>)
    requires Swept(t, slots, i, before, left, gone)
    requires i <= j <= |slots| && forall l: nat :: i <= l < j ==> slots[l].Free?
    ensures Swept(t, slots, j, before, left, gone)
  {
    assert forall a: Addr :: HeldBefore(slots, j, a) <==> HeldBefore(slots, i, a);
  }

  lemma SweepEnd<V>(t: Table, hash: Addr -> nat, slots: seq<Slot<Addr, V>>, count: nat, all: map<Addr, V>,
                    cur: seq<Slot<Addr, V>>, before: u64, contents: map<Addr, V>, gone: seq<Addr>)
    requires Represents(hash, slots, count, all) && all.Keys == t.peers.Keys
    requires Sweeping(t, slots, all, cur, contents, |slots|, before, gone)
    ensures SubMap(contents, all) && contents.Keys <= t.peers.Keys
    ensures DoExpire(t, before, Table(map a | a in contents :: t.peers[a], t.log + RemovedAll(gone)))
  {
    hide Represents, HeldBefore, InChain;
    forall a: Addr ensures a in all <==> HeldBefore(slots, |slots|, a) { KeysAreHeld(hash, slots, count, all, a); }
    assert Reports(t, before, gone);
  }
}
