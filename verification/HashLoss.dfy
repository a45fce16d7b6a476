/** Which tables can lose records when memory runs out while they grow. */
module HashLoss {
  import opened Types
  import opened Arith
  import opened HashSpec

  /** Storing the records of `from` again, from slot i on, meets one without room. */
  ghost predicate Overflows<K, V>(hash: K -> nat, s: Store<K, V>, from: seq<Slot<K, V>>, i: nat)
    requires |s.slots| > 0 && i <= |from|
    decreases |from| - i
  {
    if i == |from| then false
    else if from[i].Free? then Overflows(hash, s, from, i + 1)
    else
      match Room(hash, s, from[i].key)
      case None => true
      case Some(j) => Overflows(hash, Filled(s, j, from[i].key, from[i].value), from, i + 1)
  }

  /** The table after storing them all. */
  ghost function Refilled<K, V>(hash: K -> nat, s: Store<K, V>, from: seq<Slot<K, V>>, i: nat): (r: Store<K, V>)
    requires |s.slots| > 0 && i <= |from| && !Overflows(hash, s, from, i)
    ensures |r.slots| == |s.slots|
    decreases |from| - i
  {
    if i == |from| then s
    else if from[i].Free? then Refilled(hash, s, from, i + 1)
    else
      var j := Room(hash, s, from[i].key).value;
      Refilled(hash, Filled(s, j, from[i].key, from[i].value), from, i + 1)
  }

  /** There is no room for k, the table may double, and its records do not fit into
      the doubled table in slot order; or they do, and the same is true there. */
  ghost predicate MayLose<K, V>(hash: K -> nat, cap: nat, s: Store<K, V>, k: K)
    requires |s.slots| > 0
    decreases cap - |s.slots|
  {
    && Room(hash, s, k).None? && 2 * |s.slots| <= cap
    && (Overflows(hash, Blank(2 * |s.slots|), s.slots, 0)
        || MayLose(hash, cap, Refilled(hash, Blank(2 * |s.slots|), s.slots, 0), k))
  }

  lemma {:induction false} RefillFits<K, V>(
      hash: K -> nat, mem: Memory, s: Store<K, V>, used: nat, from: seq<Slot<K, V>>, i: nat)
    requires 0 < |s.slots| <= mem.cap && i <= |from| && !Overflows(hash, s, from, i)
    ensures Refill(hash, mem, s, used, from, i) == Effect(MapOk, Refilled(hash, s, from, i), used)
    decreases |from| - i
  {
    hide Room;
    if i < |from| {
      if from[i].Free? {
        RefillFits(hash, mem, s, used, from, i + 1);
      } else {
        var j := Room(hash, s, from[i].key).value;
        RefillFits(hash, mem, Filled(s, j, from[i].key, from[i].value), used, from, i + 1);
      }
    }
  }

  lemma StoreNext<K(!new), V>(
      hash: K -> nat, s: Store<K, V>, from: seq<Slot<K, V>>, i: nat, size: nat, all: map<K, V>, stored: map<K, V>)
    requires Represents(hash, from, size, all) && i < |from| && from[i].Used?
    requires Represents(hash, s.slots, s.size, stored) && Half(from, i, stored, all)
    requires Room(hash, s, from[i].key).Some?
    ensures var k, v, j := from[i].key, from[i].value, Room(hash, s, from[i].key).value;
            var t := Filled(s, j, k, v);
            Represents(hash, t.slots, t.size, stored[k := v]) && Half(from, i + 1, stored[k := v], all)
  {
    hide Represents, InChain, Room;
    var k, v, j := from[i].key, from[i].value, Room(hash, s, from[i].key).value;
    HalfNext(hash, from, size, all, i, stored);
    if s.slots[j].Used? {
      UsedKeyInMap(hash, s.slots, s.size, stored, j);
      assert false;
    }
    AddRepresents(hash, s.slots, s.size, stored, j, k, v);
  }

  /** Without overflow the new table holds the same map. */
  lemma {:induction false} RefilledRepresents<K(!new), V>(
      hash: K -> nat, s: Store<K, V>, from: seq<Slot<K, V>>, i: nat, size: nat, all: map<K, V>, stored: map<K, V>)
    requires Represents(hash, from, size, all) && i <= |from| && |s.slots| > 0 && !Overflows(hash, s, from, i)
    requires Represents(hash, s.slots, s.size, stored) && Half(from, i, stored, all)
    ensures var r := Refilled(hash, s, from, i); Represents(hash, r.slots, r.size, all)
    decreases |from| - i
  {
    hide Represents, InChain, Room;
    if i == |from| {
      HalfDone(hash, from, size, all, stored);
    } else if from[i].Free? {
      HalfNext(hash, from, size, all, i, stored);
      RefilledRepresents(hash, s, from, i + 1, size, all, stored);
    } else {
      StoreNext(hash, s, from, i, size, all, stored);
      var k, v, j := from[i].key, from[i].value, Room(hash, s, from[i].key).value;
      RefilledRepresents(hash, Filled(s, j, k, v), from, i + 1, size, all, stored[k := v]);
    }
  }

  /** Slots hold k somewhere. */
  ghost predicate Has<K, V>(slots: seq<Slot<K, V>>, k: K) { HeldBefore(slots, |slots|, k) }

  /** Storing k makes the table lose a record that it held. */
  ghost predicate Loses<K(!new), V>(hash: K -> nat, mem: Memory, s: Store<K, V>, used: nat, k: K, v: V)
    requires 0 < |s.slots| <= mem.cap
  {
    exists l :: Has(s.slots, l) && !Has(Place(hash, mem, s, used, k, v).store.slots, l)
  }

  /** If the table cannot lose records, then whatever the allocator does, storing an
      absent key adds it or changes nothing. */
  lemma {:induction false} NeverLoses<K(!new), V>(
      hash: K -> nat, mem: Memory, s: Store<K, V>, used: nat, k: K, v: V, m: map<K, V>)
    requires 0 < |s.slots| <= mem.cap && Represents(hash, s.slots, s.size, m) && k !in m
    requires !MayLose(hash, mem.cap, s, k)
    ensures var r := Place(hash, mem, s, used, k, v);
            Represents(hash, r.store.slots, r.store.size, if r.status == MapOk then m[k := v] else m)
    decreases mem.cap - |s.slots|
  {
    hide Represents, InChain, Room;
    match Room(hash, s, k)
    case Some(i) => StoreAbsent(hash, s, k, v, m);
    case None =>
      if 2 * |s.slots| <= mem.cap && mem.grant(used) {
        var b := Blank<K, V>(2 * |s.slots|);
        RefillFits(hash, mem, b, used + 1, s.slots, 0);
        EmptyRepresents(hash, b.slots);
        RefilledRepresents(hash, b, s.slots, 0, s.size, m, map[]);
        NeverLoses(hash, mem, Refilled(hash, b, s.slots, 0), used + 1, k, v, m);
      }
  }

  /** What a failure to store says. */
  lemma FailedPlace<K(!new), V>(
      hash: K -> nat, mem: Memory, s: Store<K, V>, used: nat, k: K, v: V, m: map<K, V>,
      t: Store<K, V>, used': nat, n: map<K, V>)
    requires 0 < |s.slots| <= mem.cap && Represents(hash, s.slots, s.size, m) && k !in m
    requires Place(hash, mem, s, used, k, v) == Effect(MapOmem, t, used') && Represents(hash, t.slots, t.size, n)
    ensures used' > used && (2 * |t.slots| > mem.cap || !mem.grant(used' - 1))
    ensures !MayLose(hash, mem.cap, s, k) ==> n == m
  {
    hide Represents, Place, MayLose;
    PlaceFails(hash, mem, s, used, k, v);
    if !MayLose(hash, mem.cap, s, k) {
      NeverLoses(hash, mem, s, used, k, v, m);
      OneMeaning(hash, t, n, m);
    }
  }

  lemma StoreAbsent<K, V>(hash: K -> nat, s: Store<K, V>, k: K, v: V, m: map<K, V>)
    requires |s.slots| > 0 && Represents(hash, s.slots, s.size, m) && k !in m && Room(hash, s, k).Some?
    ensures var t := Filled(s, Room(hash, s, k).value, k, v); Represents(hash, t.slots, t.size, m[k := v])
  {
    hide Represents, InChain, Room;
    var i := Room(hash, s, k).value;
    if s.slots[i].Used? {
      UsedKeyInMap(hash, s.slots, s.size, m, i);
      assert false;
    }
    AddRepresents(hash, s.slots, s.size, m, i, k, v);
  }

  /** An overflow while memory is refused loses the record without room. */
  lemma {:induction false} OverflowLoses<K(!new), V>(
      hash: K -> nat, mem: Memory, s: Store<K, V>, used: nat, from: seq<Slot<K, V>>, i: nat,
      size: nat, all: map<K, V>, stored: map<K, V>) returns (lost: K)
    requires Represents(hash, from, size, all) && i <= |from| && 0 < |s.slots| <= mem.cap && Overflows(hash, s, from, i)
    requires Represents(hash, s.slots, s.size, stored) && Half(from, i, stored, all)
    requires !mem.grant(used)
    ensures Has(from, lost) && !Has(Refill(hash, mem, s, used, from, i).store.slots, lost)
    ensures Refill(hash, mem, s, used, from, i).status == MapOmem
    decreases |from| - i
  {
    hide Represents, InChain, Room;
    if from[i].Free? {
      HalfNext(hash, from, size, all, i, stored);
      lost := OverflowLoses(hash, mem, s, used, from, i + 1, size, all, stored);
    } else {
      var k, v := from[i].key, from[i].value;
      match Room(hash, s, k) {
        case None =>
          lost := k;
          assert Grow(hash, mem, s, used) == Effect(MapOmem, s, used + 1);
          assert Place(hash, mem, s, used, k, v) == Effect(MapOmem, s, used + 1);
          HalfNext(hash, from, size, all, i, stored);
          KeysAreHeld(hash, s.slots, s.size, stored, k);
        case Some(j) =>
          StoreNext(hash, s, from, i, size, all, stored);
          assert Place(hash, mem, s, used, k, v) == Effect(MapOk, Filled(s, j, k, v), used);
          lost := OverflowLoses(hash, mem, Filled(s, j, k, v), used, from, i + 1, size, all, stored[k := v]);
      }
    }
  }

  /** The allocator that refuses from the n-th request on. */
  function Until(n: nat): (g: nat -> bool) { i => i < n }

  lemma {:induction false} CanLose<K(!new), V>(
      hash: K -> nat, cap: nat, s: Store<K, V>, used: nat, k: K, v: V, m: map<K, V>)
    returns (n: nat)
    requires 0 < |s.slots| <= cap && Represents(hash, s.slots, s.size, m) && MayLose(hash, cap, s, k)
    ensures n > used && Loses(hash, Memory(cap, Until(n)), s, used, k, v)
    ensures Overflows(hash, Blank(2 * |s.slots|), s.slots, 0) ==> n == used + 1
    decreases cap - |s.slots|
  {
    hide Represents, InChain, Room, Has;
    var b := Blank<K, V>(2 * |s.slots|);
    EmptyRepresents(hash, b.slots);
    if Overflows(hash, b, s.slots, 0) {
      n := used + 1;
      var mem := Memory(cap, Until(n));
      var lost := OverflowLoses(hash, mem, b, used + 1, s.slots, 0, s.size, m, map[]);
      assert Grow(hash, mem, s, used) == Refill(hash, mem, b, used + 1, s.slots, 0);
      assert Has(s.slots, lost) && !Has(Place(hash, mem, s, used, k, v).store.slots, lost);
    } else {
      var t := Refilled(hash, b, s.slots, 0);
      RefilledRepresents(hash, b, s.slots, 0, s.size, m, map[]);
      n := CanLose(hash, cap, t, used + 1, k, v, m);
      var mem := Memory(cap, Until(n));
      RefillFits(hash, mem, b, used + 1, s.slots, 0);
      assert Grow(hash, mem, s, used) == Effect(MapOk, t, used + 1);
      var l :| Has(t.slots, l) && !Has(Place(hash, mem, t, used + 1, k, v).store.slots, l);
      SameKeys(hash, s, t, m, l);
    }
  }

  lemma SameKeys<K, V>(hash: K -> nat, s: Store<K, V>, t: Store<K, V>, m: map<K, V>, l: K)
    requires Represents(hash, s.slots, s.size, m) && Represents(hash, t.slots, t.size, m)
    ensures Has(s.slots, l) <==> Has(t.slots, l)
  {
    hide Represents;
    KeysAreHeld(hash, s.slots, s.size, m, l);
    KeysAreHeld(hash, t.slots, t.size, m, l);
  }

  /** Exactly which tables can lose a record to an allocator that gives up. */
  lemma LossExact<K(!new), V>(hash: K -> nat, cap: nat, s: Store<K, V>, used: nat, k: K, v: V, m: map<K, V>)
    requires 0 < |s.slots| <= cap && Represents(hash, s.slots, s.size, m) && k !in m
    ensures MayLose(hash, cap, s, k) <==> exists g: nat -> bool :: Loses(hash, Memory(cap, g), s, used, k, v)
  {
    hide Represents, InChain, Room, Place;
    if MayLose(hash, cap, s, k) {
      var n := CanLose(hash, cap, s, used, k, v, m);
      assert Loses(hash, Memory(cap, Until(n)), s, used, k, v);
    } else {
      forall g: nat -> bool ensures !Loses(hash, Memory(cap, g), s, used, k, v) {
        var r := Place(hash, Memory(cap, g), s, used, k, v);
        NeverLoses(hash, Memory(cap, g), s, used, k, v, m);
        forall l | Has(s.slots, l) ensures Has(r.store.slots, l) {
          KeysAreHeld(hash, s.slots, s.size, m, l);
          KeysAreHeld(hash, r.store.slots, r.store.size, if r.status == MapOk then m[k := v] else m, l);
        }
      }
    }
  }

  // ----- few keys always have room

  lemma {:induction false} NoneFound<K, V>(hash: K -> nat, slots: seq<Slot<K, V>>, k: K, j: nat, i: nat)
    requires |slots| > 0 && j <= i < MAX_CHAIN_LENGTH && Find(hash, slots, k, j).None?
    ensures slots[Probe(hash, k, |slots|, i)].Used?
    decreases i - j
  {
    if j < i { NoneFound(hash, slots, k, j + 1, i); }
  }

  lemma ProbeIs<K>(hash: K -> nat, k: K, n: nat, j: nat)
    requires j < n
    ensures var h := hash(k) % n; Probe(hash, k, n, j) == if h + j < n then h + j else h + j - n
  {
    var h := hash(k) % n;
    if h + j < n { DivOf(h + j, n, 0, h + j); } else { DivOf(h + j, n, 1, h + j - n); }
  }

  ghost function Chain<K>(hash: K -> nat, k: K, n: nat, j: nat): (s: set<nat>)
    requires n > 0
  {
    set i: nat | i < j :: Probe(hash, k, n, i)
  }

  lemma {:induction false} ChainSize<K>(hash: K -> nat, k: K, n: nat, j: nat)
    requires j <= MAX_CHAIN_LENGTH <= n
    ensures |Chain(hash, k, n, j)| == j
    decreases j
  {
    hide Probe;
    if j == 0 {
      assert Chain(hash, k, n, 0) == {};
    } else {
      ChainSize(hash, k, n, j - 1);
      var p := Probe(hash, k, n, j - 1);
      assert Chain(hash, k, n, j) == Chain(hash, k, n, j - 1) + {p};
      if p in Chain(hash, k, n, j - 1) {
        var i: nat :| i < j - 1 && p == Probe(hash, k, n, i);
        ProbeIs(hash, k, n, i);
        ProbeIs(hash, k, n, j - 1);
        assert false;
      }
    }
  }

  /** What a caller can count on: with fewer than eight keys there is always room,
      whatever the hash function. */
  lemma FewKeysHaveRoom<K, V>(hash: K -> nat, s: Store<K, V>, m: map<K, V>, k: K)
    requires |s.slots| >= INITIAL_SIZE && Represents(hash, s.slots, s.size, m) && |m| < MAX_CHAIN_LENGTH
    ensures Room(hash, s, k).Some?
  {
    SizeIsInUse(hash, s.slots, s.size, m);
    assert s.size == |m|;
    hide Represents, Probe, InChain;
    if Room(hash, s, k).None? {
      var c := Chain(hash, k, |s.slots|, MAX_CHAIN_LENGTH);
      forall x | x in c ensures x in InUse(s.slots) {
        var i: nat :| i < MAX_CHAIN_LENGTH && x == Probe(hash, k, |s.slots|, i);
        NoneFound(hash, s.slots, k, 0, i);
      }
      ChainSize(hash, k, |s.slots|, MAX_CHAIN_LENGTH);
      Smaller(c, InUse(s.slots));
    }
  }

  lemma {:induction false} Smaller(a: set<nat>, b: set<nat>)
    requires a <= b
    ensures |a| <= |b|
    decreases |a|
  {
    if a != {} {
      var x :| x in a;
      Smaller(a - {x}, b - {x});
    }
  }

  // ----- a loss

  /** Keys 0 to 7 and 9 collide at the last slot of 256 and of 512; key 8 is at home in slot 0. */
  function CrowdHash(k: nat): (h: nat) { if k == 8 then 0 else 511 }

  /** Keys c, c + 1, ... in the last slot and then from slot 0 on. */
  function Packed(slots: nat, c: nat, n: nat): (s: Store<nat, nat>) {
    Store(seq(slots, x => if n > 0 && x == slots - 1 then Used(c, c)
                          else if x + 1 < n then Used(c + x + 1, c + x + 1)
                          else Free), n)
  }

  lemma {:induction false} FindAt<K, V>(hash: K -> nat, slots: seq<Slot<K, V>>, k: K, j: nat, n: nat)
    requires |slots| > 0 && j <= n <= MAX_CHAIN_LENGTH
    requires forall i: nat :: j <= i < n ==> var s := slots[Probe(hash, k, |slots|, i)]; s.Used? && s.key != k
    requires n < MAX_CHAIN_LENGTH ==> slots[Probe(hash, k, |slots|, n)].Free?
    ensures Find(hash, slots, k, j) == if n < MAX_CHAIN_LENGTH then Some(Probe(hash, k, |slots|, n)) else None
    decreases n - j
  {
    hide Probe;
    if j < n { FindAt(hash, slots, k, j + 1, n); }
  }

  /** Chains in tables of 256 and 512 slots: key 8 starts in slot 0, the others in the last. */
  lemma CrowdProbe(slots: nat, q: nat, i: nat)
    requires (slots == 256 || slots == 512) && i < MAX_CHAIN_LENGTH
    ensures Probe(CrowdHash, q, slots, i) == if q == 8 then i else if i == 0 then slots - 1 else i - 1
  {
    ProbeIs(CrowdHash, q, slots, i);
  }

  lemma PackedGrows(slots: nat, c: nat, n: nat)
    requires n < slots
    ensures var i := if n == 0 then slots - 1 else n - 1;
            && Packed(slots, c, n).slots[i].Free?
            && Packed(slots, c, n).slots[i := Used(c + n, c + n)] == Packed(slots, c, n + 1).slots
  {}

  /** The next key of a packed table goes into the next slot. */
  lemma PackNext(slots: nat, c: nat, n: nat)
    requires (slots == 256 || slots == 512) && c <= 1 && c + n <= 8
    ensures var s, q := Packed(slots, c, n), c + n as nat;
            Room(CrowdHash, s, q).Some? && Filled(s, Room(CrowdHash, s, q).value, q, q) == Packed(slots, c, n + 1)
  {
    hide Probe, Find, CrowdHash;
    var s := Packed(slots, c, n);
    var q: nat := c + n;
    var j: nat := if q == 8 then n - 1 else n;
    forall i: nat | i <= j
      ensures Probe(CrowdHash, q, slots, i) == if q == 8 then i else if i == 0 then slots - 1 else i - 1
    {
      CrowdProbe(slots, q, i);
    }
    PackedGrows(slots, c, n);
    FindAt(CrowdHash, s.slots, q, 0, j);
    hide Packed;
  }

  /** A key of the crowd finds no room once the eight slots of its chain are taken. */
  lemma PackedIsFull(slots: nat, c: nat, n: nat, q: nat)
    requires (slots == 256 || slots == 512) && 8 <= n <= 9 && (q < c || q >= c + n) && q != 8
    ensures Room(CrowdHash, Packed(slots, c, n), q).None?
  {
    hide Probe, Find, CrowdHash;
    var s := Packed(slots, c, n);
    forall i: nat | i < 8 ensures Probe(CrowdHash, q, slots, i) == if i == 0 then slots - 1 else i - 1 {
      CrowdProbe(slots, q, i);
    }
    FindAt(CrowdHash, s.slots, q, 0, 8);
  }

  /** Stores the keys 0, 1, ... below n one after the other in an empty table. */
  ghost function StoreKeys(mem: Memory, n: nat): (r: Effect<nat, nat>)
    requires INITIAL_SIZE <= mem.cap
    ensures INITIAL_SIZE <= |r.store.slots| <= mem.cap
  {
    if n == 0 then Effect(MapOk, Blank(INITIAL_SIZE), 0)
    else var e := StoreKeys(mem, n - 1); Place(CrowdHash, mem, e.store, e.used, n - 1, n - 1)
  }

  lemma {:induction false} CrowdStored(mem: Memory, n: nat) returns (m: map<nat, nat>)
    requires INITIAL_SIZE <= mem.cap && n <= 9
    ensures StoreKeys(mem, n) == Effect(MapOk, Packed(256, 0, n), 0)
    ensures (forall k: nat :: k in m <==> k < n) && Represents(CrowdHash, Packed(256, 0, n).slots, n, m)
    decreases n
  {
    hide Represents, Room, InChain;
    if n == 0 {
      m := map[];
      PackedEmpty(256, 0);
      EmptyRepresents(CrowdHash, Packed(256, 0, 0).slots);
    } else {
      var l := CrowdStored(mem, n - 1);
      PackNext(256, 0, n - 1);
      StoreAbsent(CrowdHash, Packed(256, 0, n - 1), n - 1, n - 1, l);
      m := l[n - 1 := n - 1];
    }
  }

  /** Doubling stores keys 1 to 8 first, and key 0 from the last slot finds its chain taken. */
  lemma {:induction false} CrowdOverflows(i: nat)
    requires i <= 256
    ensures i <= 8 ==> Overflows(CrowdHash, Packed(512, 1, i), Packed(256, 0, 9).slots, i)
    ensures i > 8 && i <= 255 ==> Overflows(CrowdHash, Packed(512, 1, 8), Packed(256, 0, 9).slots, i)
    decreases 256 - i
  {
    hide Room;
    var from := Packed(256, 0, 9).slots;
    if i == 255 {
      assert from[i] == Used(0, 0);
      PackedIsFull(512, 1, 8, 0);
    } else if i < 8 {
      assert from[i] == Used(i + 1, i + 1);
      PackNext(512, 1, i);
      CrowdOverflows(i + 1);
    } else if i < 255 {
      assert from[i].Free?;
      CrowdOverflows(i + 1);
    }
  }

  /** Nine keys stored in an empty table, a tenth that makes it grow, and an allocator
      that grants the first growth only: a record that was stored is lost. */
  lemma LossHappens()
    ensures var mem := Memory(1024, Until(1));
            var e := StoreKeys(mem, 9);
            e.status == MapOk && MayLose(CrowdHash, 1024, e.store, 9) && Loses(CrowdHash, mem, e.store, e.used, 9, 9)
  {
    hide Represents, Room, InChain, Place, Overflows, StoreKeys, Loses, Refilled, Until;
    var mem := Memory(1024, Until(1));
    var m := CrowdStored(mem, 9);
    var s := Packed(256, 0, 9);
    PackedIsFull(256, 0, 9, 9);
    CrowdOverflows(0);
    PackedEmpty(512, 1);
    var twice: nat := 2 * |s.slots|;
    assert twice == 512;
    hide Packed, Blank;
    assert Overflows(CrowdHash, Packed(512, 1, 0), s.slots, 0);
    assert Blank<nat, nat>(twice) == Packed(512, 1, 0);
    assert MayLose(CrowdHash, 1024, s, 9);
    var n := CanLose(CrowdHash, 1024, s, 0, 9, 9, m);
  }

  lemma PackedEmpty(slots: nat, c: nat)
    ensures Packed(slots, c, 0) == Blank(slots)
  {
    assert Packed(slots, c, 0).slots == Blank<nat, nat>(slots).slots;
  }
}
