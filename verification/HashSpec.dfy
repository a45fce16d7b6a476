/** The open-addressing hash map on values: what its slots mean, and which slot each
    operation writes, for an arbitrary hash function and an arbitrary allocator. */
module HashSpec {
  import opened Types
  import opened Arith

  const INITIAL_SIZE: nat := 256
  const MAX_CHAIN_LENGTH: nat := 8

  datatype Status = MapOk | MapOmem | MapMissing

  datatype Slot<K, V> = Free | Used(key: K, value: V)

  /** The slot tried for key k after j collisions. */
  function Probe<K>(hash: K -> nat, k: K, tableSize: nat, j: nat): (i: nat)
    requires tableSize > 0
    ensures i < tableSize
  {
    (hash(k) % tableSize + j) % tableSize
  }

  ghost predicate InChain<K>(hash: K -> nat, k: K, tableSize: nat, i: nat)
    requires tableSize > 0
  {
    exists j: nat :: j < MAX_CHAIN_LENGTH && i == Probe(hash, k, tableSize, j)
  }

  /** Slot i of the table holds key k. */
  ghost predicate Holds<K, V>(slots: seq<Slot<K, V>>, i: nat, k: K) {
    i < |slots| && slots[i].Used? && slots[i].key == k
  }

  /** The slots hold exactly the map m: one slot per key, within reach of its
      hash, and `size` counts the keys. */
  ghost predicate Represents<K, V>(hash: K -> nat, slots: seq<Slot<K, V>>, size: nat, m: map<K, V>) {
    && |slots| > 0 && size == |m|
    && (forall i: nat :: i < |slots| && slots[i].Used? ==> slots[i].key in m && m[slots[i].key] == slots[i].value)
    && (forall i: nat :: i < |slots| && slots[i].Used? ==> InChain(hash, slots[i].key, |slots|, i))
    && (forall i: nat, j: nat :: i < j < |slots| && slots[i].Used? && slots[j].Used? ==> slots[i].key != slots[j].key)
    && (forall k :: k in m ==> exists i :: Holds(slots, i, k))
  }

  /** Some slot before i holds k. */
  ghost predicate HeldBefore<K, V>(slots: seq<Slot<K, V>>, i: nat, k: K) {
    exists j: nat :: j < i && Holds(slots, j, k)
  }

  lemma EmptyRepresents<K, V>(hash: K -> nat, slots: seq<Slot<K, V>>)
    requires |slots| > 0 && forall i :: 0 <= i < |slots| ==> slots[i].Free?
    ensures Represents(hash, slots, 0, map[])
  {}

  lemma UsedKeyInMap<K, V>(hash: K -> nat, slots: seq<Slot<K, V>>, size: nat, m: map<K, V>, i: nat)
    requires Represents(hash, slots, size, m) && i < |slots| && slots[i].Used?
    ensures slots[i].key in m && m[slots[i].key] == slots[i].value && InChain(hash, slots[i].key, |slots|, i)
  {}

  lemma KeysAreHeld<K, V>(hash: K -> nat, slots: seq<Slot<K, V>>, size: nat, m: map<K, V>, k: K)
    requires Represents(hash, slots, size, m)
    ensures k in m <==> HeldBefore(slots, |slots|, k)
  {
    if k in m {
      var i :| Holds(slots, i, k);
    }
  }

  /** Slots mean one map. */
  lemma OneMeaning<K(!new), V>(hash: K -> nat, s: Store<K, V>, m: map<K, V>, n: map<K, V>)
    requires Represents(hash, s.slots, s.size, m) && Represents(hash, s.slots, s.size, n)
    ensures m == n
  {
    hide InChain;
    forall k ensures k in m <==> k in n {
      KeysAreHeld(hash, s.slots, s.size, m, k);
      KeysAreHeld(hash, s.slots, s.size, n, k);
    }
    forall k | k in m ensures m[k] == n[k] { var i :| Holds(s.slots, i, k); }
  }

  lemma OneSlotPerKey<K, V>(hash: K -> nat, slots: seq<Slot<K, V>>, size: nat, m: map<K, V>, i: nat, j: nat, k: K)
    requires Represents(hash, slots, size, m) && Holds(slots, i, k) && Holds(slots, j, k)
    ensures i == j
  {}

  lemma AddRepresents<K, V>(hash: K -> nat, slots: seq<Slot<K, V>>, size: nat, m: map<K, V>, i: nat, k: K, v: V)
    requires Represents(hash, slots, size, m) && k !in m
    requires i < |slots| && slots[i].Free? && InChain(hash, k, |slots|, i)
    ensures Represents(hash, slots[i := Used(k, v)], size + 1, m[k := v])
  {
    hide InChain, Probe;
    var s, n := slots[i := Used(k, v)], m[k := v];
    forall l | l in n ensures exists j :: Holds(s, j, l) {
      if l == k {
        assert Holds(s, i, k);
      } else {
        var j :| Holds(slots, j, l);
        assert Holds(s, j, l);
      }
    }
  }

  lemma RemoveRepresents<K, V>(hash: K -> nat, slots: seq<Slot<K, V>>, size: nat, m: map<K, V>, i: nat)
    requires Represents(hash, slots, size, m) && i < |slots| && slots[i].Used?
    ensures size > 0 && Represents(hash, slots[i := Free], size - 1, m - {slots[i].key})
  {
    hide InChain, Probe;
    var k := slots[i].key;
    var s, n := slots[i := Free], m - {k};
    assert n.Keys == m.Keys - {k};
    assert |m.Keys| == |m| && |n.Keys| == |n|;
    forall l | l in n ensures exists j :: Holds(s, j, l) {
      var j :| Holds(slots, j, l);
      assert Holds(s, j, l);
    }
  }

  ghost function InUse<K, V>(slots: seq<Slot<K, V>>): (s: set<nat>) {
    set i: nat | i < |slots| && slots[i].Used?
  }

  lemma NothingInUse<K, V>(hash: K -> nat, slots: seq<Slot<K, V>>, size: nat, m: map<K, V>)
    requires Represents(hash, slots, size, m) && InUse(slots) == {}
    ensures size == 0
  {
    hide InChain, Probe;
    assert forall i: nat, k :: Holds(slots, i, k) ==> i in InUse(slots);
    assert m.Keys == {};
  }

  /** `size` is the number of slots in use. */
  lemma {:induction false} SizeIsInUse<K, V>(hash: K -> nat, slots: seq<Slot<K, V>>, size: nat, m: map<K, V>)
    requires Represents(hash, slots, size, m)
    ensures |InUse(slots)| == size
    decreases size
  {
    hide Represents;
    if InUse(slots) == {} {
      NothingInUse(hash, slots, size, m);
    } else {
      var i :| i in InUse(slots);
      RemoveRepresents(hash, slots, size, m, i);
      SizeIsInUse(hash, slots[i := Free], size - 1, m - {slots[i].key});
      assert InUse(slots[i := Free]) == InUse(slots) - {i};
    }
  }

  /** Storing a key that is already present always breaks the map, whichever slot
      is written: the key is then stored twice or `size` is off by one. So the
      caller has to look the key up first. */
  lemma PutPresentBreaks<K, V>(
      hash: K -> nat, slots: seq<Slot<K, V>>, size: nat, m: map<K, V>, i: nat, k: K, v: V, n: map<K, V>)
    requires Represents(hash, slots, size, m) && k in m && i < |slots| && (slots[i].Free? || slots[i].key == k)
    ensures !Represents(hash, slots[i := Used(k, v)], size + 1, n)
  {
    hide Represents;
    var s := slots[i := Used(k, v)];
    if Represents(hash, s, size + 1, n) {
      KeysAreHeld(hash, slots, size, m, k);
      var j: nat :| j < |slots| && Holds(slots, j, k);
      if j != i {
        assert Holds(s, i, k) && Holds(s, j, k);
        OneSlotPerKey(hash, s, size + 1, n, i, j, k);
      } else {
        assert InUse(s) == InUse(slots);
        SizeIsInUse(hash, slots, size, m);
        SizeIsInUse(hash, s, size + 1, n);
      }
    }
  }

  ghost predicate SubMap<K, V>(a: map<K, V>, b: map<K, V>) {
    forall k :: k in a ==> k in b && a[k] == b[k]
  }

  lemma SubMapSelf<K, V>(a: map<K, V>)
    ensures SubMap(a, a)
  {}

  lemma NonEmpty<K, V>(hash: K -> nat, slots: seq<Slot<K, V>>, size: nat, m: map<K, V>)
    requires Represents(hash, slots, size, m)
    ensures |slots| > 0
  {}

  lemma HeldNext<K, V>(slots: seq<Slot<K, V>>, i: nat)
    requires i < |slots|
    ensures forall k :: HeldBefore(slots, i + 1, k) <==> HeldBefore(slots, i, k) || Holds(slots, i, k)
  {}

  /** Exactly the records before slot i have been stored again. */
  ghost predicate Half<K(!new), V>(from: seq<Slot<K, V>>, i: nat, stored: map<K, V>, all: map<K, V>) {
    (forall k :: k in stored <==> HeldBefore(from, i, k)) && SubMap(stored, all)
  }

  /** While records are stored again in slot order, the next one is not yet there. */
  lemma HalfNext<K(!new), V>(
      hash: K -> nat, from: seq<Slot<K, V>>, size: nat, all: map<K, V>, i: nat, stored: map<K, V>)
    requires Represents(hash, from, size, all) && i < |from| && Half(from, i, stored, all)
    ensures from[i].Free? ==> Half(from, i + 1, stored, all)
    ensures from[i].Used? ==>
              var k, v := from[i].key, from[i].value;
              Holds(from, i, k) && k !in stored && k in all && Half(from, i + 1, stored[k := v], all)
  {
    hide InChain, Represents;
    HeldNext(from, i);
    if from[i].Used? {
      var k := from[i].key;
      UsedKeyInMap(hash, from, size, all, i);
      if k in stored {
        var j: nat :| j < i && Holds(from, j, k);
        OneSlotPerKey(hash, from, size, all, i, j, k);
      }
    }
  }

  lemma HalfDone<K(!new), V>(hash: K -> nat, from: seq<Slot<K, V>>, size: nat, all: map<K, V>, stored: map<K, V>)
    requires Represents(hash, from, size, all) && Half(from, |from|, stored, all)
    ensures stored == all
  {
    hide Represents;
    forall k ensures k in stored <==> k in all { KeysAreHeld(hash, from, size, all, k); }
  }

  lemma HalfStart<K(!new), V>(from: seq<Slot<K, V>>, all: map<K, V>)
    ensures Half(from, 0, map[], all)
  {}

  lemma HalfIsPart<K(!new), V>(from: seq<Slot<K, V>>, i: nat, stored: map<K, V>, all: map<K, V>, less: map<K, V>)
    requires Half(from, i, stored, all) && SubMap(less, stored)
    ensures SubMap(less, all)
  {}

  /** A present key is held by one of the slots of its chain. */
  lemma WithinChain<K, V>(hash: K -> nat, slots: seq<Slot<K, V>>, size: nat, m: map<K, V>, k: K)
    requires Represents(hash, slots, size, m)
    ensures k in m ==> exists j: nat :: j < MAX_CHAIN_LENGTH && Holds(slots, Probe(hash, k, |slots|, j), k)
  {
    hide Probe;
    if k in m {
      var i :| Holds(slots, i, k);
    }
  }

  lemma ProbeZero<K>(hash: K -> nat, k: K, tableSize: nat)
    requires tableSize > 0
    ensures Probe(hash, k, tableSize, 0) == hash(k) % tableSize
  {
    var r := hash(k) % tableSize;
    DivOf(r, tableSize, 0, r);
  }

  lemma ProbeNext<K>(hash: K -> nat, k: K, tableSize: nat, j: nat)
    requires tableSize > 0
    ensures (Probe(hash, k, tableSize, j) + 1) % tableSize == Probe(hash, k, tableSize, j + 1)
  {
    ModNext(hash(k) % tableSize + j, tableSize);
  }

  // ----- storing and growing, slot by slot

  datatype Store<K, V> = Store(slots: seq<Slot<K, V>>, size: nat)

  /** No table larger than `cap` can be allocated; below that, the n-th allocation
      succeeds if granted. */
  datatype Memory = Memory(cap: nat, grant: nat -> bool)

  /** A result, the table after it, and the number of allocations asked for so far. */
  datatype Effect<K, V> = Effect(status: Status, store: Store<K, V>, used: nat)

  /** First free or matching slot of the chain of k, from its j-th slot on. */
  ghost function Find<K, V>(hash: K -> nat, slots: seq<Slot<K, V>>, k: K, j: nat): (r: Option<nat>)
    requires |slots| > 0 && j <= MAX_CHAIN_LENGTH
    ensures r.Some? ==> r.value < |slots| && InChain(hash, k, |slots|, r.value)
    ensures r.Some? ==> slots[r.value].Free? || slots[r.value].key == k
    decreases MAX_CHAIN_LENGTH - j
  {
    if j == MAX_CHAIN_LENGTH then None
    else
      var i := Probe(hash, k, |slots|, j);
      if slots[i].Free? || slots[i].key == k then Some(i) else Find(hash, slots, k, j + 1)
  }

  /** Where k goes if the table is not half full. */
  ghost function Room<K, V>(hash: K -> nat, s: Store<K, V>, k: K): (r: Option<nat>)
    requires |s.slots| > 0
    ensures r.Some? ==> r.value < |s.slots| && InChain(hash, k, |s.slots|, r.value)
    ensures r.Some? ==> s.slots[r.value].Free? || s.slots[r.value].key == k
  {
    if s.size >= |s.slots| / 2 then None else Find(hash, s.slots, k, 0)
  }

  function Filled<K, V>(s: Store<K, V>, i: nat, k: K, v: V): (r: Store<K, V>)
    requires i < |s.slots|
  {
    Store(s.slots[i := Used(k, v)], s.size + 1)
  }

  function Blank<K, V>(n: nat): (s: Store<K, V>) { Store(seq(n, _ => Free), 0) }

  /** Stores k, growing the table until there is room. */
  ghost function Place<K, V>(hash: K -> nat, mem: Memory, s: Store<K, V>, used: nat, k: K, v: V): (r: Effect<K, V>)
    requires 0 < |s.slots| <= mem.cap
    ensures |s.slots| <= |r.store.slots| <= mem.cap && r.status != MapMissing
    decreases mem.cap - |s.slots|, 1, 0
  {
    match Room(hash, s, k)
    case Some(i) => Effect(MapOk, Filled(s, i, k, v), used)
    case None =>
      var g := Grow(hash, mem, s, used);
      if g.status == MapOmem then g else Place(hash, mem, g.store, g.used, k, v)
  }

  /** Doubles the table and stores every record again. */
  ghost function Grow<K, V>(hash: K -> nat, mem: Memory, s: Store<K, V>, used: nat): (r: Effect<K, V>)
    requires 0 < |s.slots| <= mem.cap
    ensures |s.slots| <= |r.store.slots| <= mem.cap && r.status != MapMissing
    ensures r.status == MapOk ==> |r.store.slots| >= 2 * |s.slots|
    decreases mem.cap - |s.slots|, 0, 0
  {
    if 2 * |s.slots| > mem.cap || !mem.grant(used) then Effect(MapOmem, s, used + 1)
    else Refill(hash, mem, Blank(2 * |s.slots|), used + 1, s.slots, 0)
  }

  /** Stores the records of the old slots from i on. */
  ghost function Refill<K, V>(
      hash: K -> nat, mem: Memory, s: Store<K, V>, used: nat, from: seq<Slot<K, V>>, i: nat): (r: Effect<K, V>)
    requires 0 < |s.slots| <= mem.cap && i <= |from|
    ensures |s.slots| <= |r.store.slots| <= mem.cap && r.status != MapMissing
    decreases mem.cap - |s.slots|, 2, |from| - i
  {
    if i == |from| then Effect(MapOk, s, used)
    else if from[i].Free? then Refill(hash, mem, s, used, from, i + 1)
    else
      var p := Place(hash, mem, s, used, from[i].key, from[i].value);
      if p.status == MapOmem then p else Refill(hash, mem, p.store, p.used, from, i + 1)
  }

  /** There is room exactly if less than half of the slots are in use and one of the eight
      slots that follow the hash is free or holds the key. */
  lemma RoomExact<K, V>(hash: K -> nat, s: Store<K, V>, k: K)
    requires |s.slots| > 0
    ensures Room(hash, s, k).Some? <==>
              && s.size < |s.slots| / 2
              && exists j: nat :: j < 8 && !(s.slots[Probe(hash, k, |s.slots|, j)].Used?
                                             && s.slots[Probe(hash, k, |s.slots|, j)].key != k)
  {
    hide Probe, InChain;
    FindExact(hash, s.slots, k, 0);
  }

  lemma {:induction false} FindExact<K, V>(hash: K -> nat, slots: seq<Slot<K, V>>, k: K, i: nat)
    requires |slots| > 0 && i <= MAX_CHAIN_LENGTH
    ensures Find(hash, slots, k, i).Some? <==>
              exists j: nat :: i <= j < 8 && !(slots[Probe(hash, k, |slots|, j)].Used?
                                               && slots[Probe(hash, k, |slots|, j)].key != k)
    decreases MAX_CHAIN_LENGTH - i
  {
    hide Probe, InChain;
    if i < MAX_CHAIN_LENGTH { FindExact(hash, slots, k, i + 1); }
  }

  ghost predicate AtMostHalf<K, V>(s: Store<K, V>) { s.size <= |s.slots| / 2 }

  /** The table never gets more than half full, and whatever happens to it. */
  lemma {:induction false} PlaceKeepsHalf<K, V>(hash: K -> nat, mem: Memory, s: Store<K, V>, used: nat, k: K, v: V)
    requires 0 < |s.slots| <= mem.cap && AtMostHalf(s)
    ensures AtMostHalf(Place(hash, mem, s, used, k, v).store)
    decreases mem.cap - |s.slots|, 1, 0
  {
    hide Find;
    if Room(hash, s, k).None? {
      GrowKeepsHalf(hash, mem, s, used);
      var g := Grow(hash, mem, s, used);
      if g.status == MapOk { PlaceKeepsHalf(hash, mem, g.store, g.used, k, v); }
    }
  }

  lemma {:induction false} GrowKeepsHalf<K, V>(hash: K -> nat, mem: Memory, s: Store<K, V>, used: nat)
    requires 0 < |s.slots| <= mem.cap && AtMostHalf(s)
    ensures AtMostHalf(Grow(hash, mem, s, used).store)
    decreases mem.cap - |s.slots|, 0, 0
  {
    if 2 * |s.slots| <= mem.cap && mem.grant(used) {
      RefillKeepsHalf(hash, mem, Blank<K, V>(2 * |s.slots|), used + 1, s.slots, 0);
    }
  }

  lemma {:induction false} RefillKeepsHalf<K, V>(
      hash: K -> nat, mem: Memory, s: Store<K, V>, used: nat, from: seq<Slot<K, V>>, i: nat)
    requires 0 < |s.slots| <= mem.cap && i <= |from| && AtMostHalf(s)
    ensures AtMostHalf(Refill(hash, mem, s, used, from, i).store)
    decreases mem.cap - |s.slots|, 2, |from| - i
  {
    if i < |from| {
      if from[i].Free? {
        RefillKeepsHalf(hash, mem, s, used, from, i + 1);
      } else {
        PlaceKeepsHalf(hash, mem, s, used, from[i].key, from[i].value);
        var p := Place(hash, mem, s, used, from[i].key, from[i].value);
        if p.status == MapOk { RefillKeepsHalf(hash, mem, p.store, p.used, from, i + 1); }
      }
    }
  }

  /** The last request made was refused. */
  ghost predicate Refused<K, V>(mem: Memory, r: Effect<K, V>) {
    r.used > 0 && (2 * |r.store.slots| > mem.cap || !mem.grant(r.used - 1))
  }

  /** Storing fails only if an allocation is refused; with room it asks for none. */
  lemma {:induction false} PlaceFails<K, V>(hash: K -> nat, mem: Memory, s: Store<K, V>, used: nat, k: K, v: V)
    requires 0 < |s.slots| <= mem.cap
    ensures var r := Place(hash, mem, s, used, k, v);
            r.used >= used && (r.status == MapOmem ==> r.used > used && Refused(mem, r))
    decreases mem.cap - |s.slots|, 1, 0
  {
    if Room(hash, s, k).None? {
      GrowFails(hash, mem, s, used);
      var g := Grow(hash, mem, s, used);
      if g.status == MapOk { PlaceFails(hash, mem, g.store, g.used, k, v); }
    }
  }

  lemma {:induction false} GrowFails<K, V>(hash: K -> nat, mem: Memory, s: Store<K, V>, used: nat)
    requires 0 < |s.slots| <= mem.cap
    ensures var r := Grow(hash, mem, s, used); r.used > used && (r.status == MapOmem ==> Refused(mem, r))
    decreases mem.cap - |s.slots|, 0, 0
  {
    if 2 * |s.slots| <= mem.cap && mem.grant(used) {
      RefillFails(hash, mem, Blank<K, V>(2 * |s.slots|), used + 1, s.slots, 0);
    }
  }

  lemma {:induction false} RefillFails<K, V>(
      hash: K -> nat, mem: Memory, s: Store<K, V>, used: nat, from: seq<Slot<K, V>>, i: nat)
    requires 0 < |s.slots| <= mem.cap && i <= |from|
    ensures var r := Refill(hash, mem, s, used, from, i); r.used >= used && (r.status == MapOmem ==> Refused(mem, r))
    decreases mem.cap - |s.slots|, 2, |from| - i
  {
    if i < |from| {
      if from[i].Free? {
        RefillFails(hash, mem, s, used, from, i + 1);
      } else {
        PlaceFails(hash, mem, s, used, from[i].key, from[i].value);
        var p := Place(hash, mem, s, used, from[i].key, from[i].value);
        if p.status == MapOk { RefillFails(hash, mem, p.store, p.used, from, i + 1); }
      }
    }
  }
}
