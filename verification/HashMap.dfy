/** The open-addressing hash map: linear probing over at most eight slots, no
    tombstones, and growth by rehashing. */
module HashMaps {
  import opened Types
  import opened HashSpec
  import opened HashLoss

  class HashMap<K(==,!new), V> {
    const hash: K -> nat
    const cap: nat
    const grant: nat -> bool
    var table: array<Slot<K, V>>
    var size: nat
    /** Allocations asked for so far. */
    var used: nat
    ghost var contents: map<K, V>

    ghost predicate Valid()
      reads this, table
    {
      INITIAL_SIZE <= table.Length <= cap && Represents(hash, table[..], size, contents)
    }

    ghost function Memory(): (m: Memory) { HashSpec.Memory(cap, grant) }

    ghost function Now(): (s: Store<K, V>)
      reads this, table
    {
      Store(table[..], size)
    }

    constructor (hash: K -> nat, cap: nat, grant: nat -> bool)
      requires INITIAL_SIZE <= cap
      ensures Valid() && fresh(table) && contents == map[] && Now() == Blank(INITIAL_SIZE) && used == 0
      ensures this.hash == hash && this.cap == cap && this.grant == grant
    {
      this.hash, this.cap, this.grant := hash, cap, grant;
      table := new Slot<K, V>[INITIAL_SIZE](_ => Free);
      size, used := 0, 0;
      contents := map[];
    }

    /** calloc: refused above the cap, and whenever memory is not granted. */
    method Allocate(n: nat) returns (slots: array?<Slot<K, V>>)
      modifies this`used
      ensures used == old(used) + 1
      ensures slots == null <==> n > cap || !grant(old(used))
      ensures slots != null ==> fresh(slots) && slots[..] == Blank<K, V>(n).slots
    {
      used := used + 1;
      if n > cap || !grant(used - 1) { return null; }
      slots := new Slot<K, V>[n](_ => Free);
    }

    /** First free or matching slot of the chain, if the table is not half full. */
    method HashIndex(k: K) returns (found: bool, index: nat)
      requires table.Length > 0
      ensures Room(hash, Now(), k) == if found then Some(index) else None
    {
      hide Probe, InChain;
      if size >= table.Length / 2 { return false, 0; }
      var curr := hash(k) % table.Length;
      ProbeZero(hash, k, table.Length);
      var i := 0;
      while i < MAX_CHAIN_LENGTH
        invariant i <= MAX_CHAIN_LENGTH && curr == Probe(hash, k, table.Length, i)
        invariant Room(hash, Now(), k) == Find(hash, table[..], k, i)
      {
        if table[curr].Free? { return true, curr; }
        if table[curr].key == k { return true, curr; }
        ProbeNext(hash, k, table.Length, i);
        curr := (curr + 1) % table.Length;
        i := i + 1;
      }
      return false, 0;
    }

    /** Doubles the table and stores every element again, growing further when
        the new table runs full. Elements can only be lost when memory runs out. */
    method Rehash() returns (status: Status)
      requires Valid()
      modifies this
      ensures Valid() && (table == old(table) || fresh(table))
      ensures Effect(status, Now(), used) == Grow(hash, Memory(), old(Now()), old(used))
      ensures status == MapOk ==> contents == old(contents)
      ensures status == MapOmem ==> SubMap(contents, old(contents))
      decreases cap - table.Length, 0
    {
      hide Represents, InChain, Room, Place, Half, SubMap;
      ghost var slots, count, all := table[..], size, contents;
      ghost var goal := Grow(hash, Memory(), Now(), used);
      SubMapSelf(all);
      var temp := Allocate(2 * table.Length);
      if temp == null { return MapOmem; }
      var curr := table;
      var oldSize := table.Length;
      table := temp;
      size := 0;
      contents := map[];
      EmptyRepresents(hash, table[..]);
      HalfStart(slots, all);
      var i := 0;
      while i < oldSize
        invariant i <= oldSize && oldSize == curr.Length && fresh(table) && curr[..] == slots
        invariant Valid() && table.Length >= 2 * oldSize
        invariant goal == Refill(hash, Memory(), Now(), used, slots, i)
        invariant Half(slots, i, contents, all)
      {
        ghost var stored := contents;
        HalfNext(hash, slots, count, all, i, stored);
        if curr[i].Used? {
          var s := Put(curr[i].key, curr[i].value);
          if s != MapOk {
            HalfIsPart(slots, i, stored, all, contents);
            return s;
          }
        }
        i := i + 1;
      }
      HalfDone(hash, slots, count, all, contents);
      return MapOk;
    }

    /** Storing k needs no growth. */
    ghost predicate HasRoom(k: K)
      requires table.Length > 0
      reads this, table
    {
      Room(hash, Now(), k).Some?
    }

    /** Storing k may cost records that the table holds, if memory runs out. */
    ghost predicate AtRisk(k: K)
      requires table.Length > 0
      reads this, table
    {
      MayLose(hash, cap, Now(), k)
    }

    /** Memory has been asked for since, and the last request was refused. */
    ghost predicate OutOfMemory(since: nat)
      reads this
    {
      used > since && (2 * table.Length > cap || !grant(used - 1))
    }

    /** Stores an absent key. It succeeds if there is room, or if the table grows far
        enough; it fails only if memory is refused, and records that it held can then
        be lost only if they are at risk. */
    method Put(k: K, v: V) returns (status: Status)
      requires Valid() && k !in contents
      modifies this, table
      ensures Valid() && (table == old(table) || fresh(table))
      ensures Effect(status, Now(), used) == Place(hash, Memory(), old(Now()), old(used), k, v)
      ensures status == MapOk ==> contents == old(contents)[k := v]
      ensures status == MapOmem ==> SubMap(contents, old(contents))
      ensures status == MapOmem ==> OutOfMemory(old(used))
      ensures old(HasRoom(k)) ==> status == MapOk && table == old(table)
      ensures !old(AtRisk(k)) ==> contents == if status == MapOk then old(contents)[k := v] else old(contents)
      decreases cap - table.Length, 1
    {
      hide Represents, InChain, Grow, Find, MayLose;
      ghost var goal := Place(hash, Memory(), Now(), used, k, v);
      ghost var begin, asked, all := Now(), used, contents;
      var found: bool, index: nat := HashIndex(k);
      while !found
        invariant Valid() && contents == old(contents) && old(table.Length) <= table.Length
        invariant table == old(table) || fresh(table)
        invariant goal == Place(hash, Memory(), Now(), used, k, v)
        invariant Room(hash, Now(), k) == if found then Some(index) else None
        invariant old(HasRoom(k)) ==> found && table == old(table)
        decreases cap - table.Length, !found
      {
        var s := Rehash();
        if s == MapOmem {
          FailedPlace(hash, Memory(), begin, asked, k, v, all, Now(), used, contents);
          return MapOmem;
        }
        found, index := HashIndex(k);
      }
      if table[index].Used? {
        UsedKeyInMap(hash, table[..], size, contents, index);
        assert false;
      }
      AddRepresents(hash, table[..], size, contents, index, k, v);
      ghost var slots := table[..][index := Used(k, v)];
      table[index] := Used(k, v);
      assert table[..] == slots;
      size := size + 1;
      contents := contents[k := v];
      return MapOk;
    }

    /** Looks a key up, and takes it out when `remove` is set. */
    method Get(k: K, remove: bool) returns (status: Status, slot: Slot<K, V>)
      requires Valid()
      modifies if remove then {this, table} else {}
      ensures Valid() && table == old(table) && used == old(used)
      ensures status == (if k in old(contents) then MapOk else MapMissing)
      ensures slot == if k in old(contents) then Used(k, old(contents)[k]) else Free
      ensures contents == if remove then old(contents) - {k} else old(contents)
    {
      hide Represents, Probe;
      NonEmpty(hash, table[..], size, contents);
      var curr := hash(k) % table.Length;
      ProbeZero(hash, k, table.Length);
      var i := 0;
      while i < MAX_CHAIN_LENGTH
        invariant Valid() && unchanged(this) && unchanged(table)
        invariant i <= MAX_CHAIN_LENGTH && curr == Probe(hash, k, table.Length, i)
        invariant forall j: nat :: j < i ==> !Holds(table[..], Probe(hash, k, table.Length, j), k)
      {
        if table[curr].Used? && table[curr].key == k {
          slot := table[curr];
          UsedKeyInMap(hash, table[..], size, contents, curr);
          if remove {
            var _ := RemoveAt(curr);
          }
          return MapOk, slot;
        }
        ProbeNext(hash, k, table.Length, i);
        curr := (curr + 1) % table.Length;
        i := i + 1;
      }
      WithinChain(hash, table[..], size, contents, k);
      return MapMissing, Free;
    }

    /** With fewer than eight keys every other key has room. */
    lemma FewHaveRoom(k: K)
      requires Valid() && |contents| < MAX_CHAIN_LENGTH
      ensures HasRoom(k)
    {
      FewKeysHaveRoom(hash, Now(), contents, k);
    }

    function Length(): (n: nat)
      requires Valid()
      reads this, table
      ensures n == |contents|
    {
      size
    }

    /** Iterator step: the next slot in use after `from`, or the end. */
    method NextInUse(from: nat) returns (i: nat)
      requires from <= table.Length
      ensures from <= i <= table.Length
      ensures forall j: nat :: from <= j < i ==> table[j].Free?
      ensures i < table.Length ==> table[i].Used?
    {
      i := from;
      while i < table.Length
        invariant from <= i <= table.Length
        invariant forall j: nat :: from <= j < i ==> table[j].Free?
      {
        if table[i].Used? { return; }
        i := i + 1;
      }
    }

    /** Removes the element the iterator stands on. */
    method RemoveAt(i: nat) returns (status: Status)
      requires Valid()
      modifies this, table
      ensures Valid() && table == old(table) && used == old(used)
      ensures status == if i < table.Length && old(table[..])[i].Used? then MapOk else MapMissing
      ensures status == MapOk ==>
                && contents == old(contents) - {old(table[..])[i].key}
                && table[..] == old(table[..])[i := Free]
      ensures status == MapMissing ==> contents == old(contents) && table[..] == old(table[..])
    {
      hide Represents;
      if i >= table.Length { return MapMissing; }
      if table[i].Free? { return MapMissing; }
      RemoveRepresents(hash, table[..], size, contents, i);
      contents := contents - {table[i].key};
      ghost var slots := table[..][i := Free];
      table[i] := Free;
      assert table[..] == slots;
      size := size - 1;
      return MapOk;
    }
  }
}
