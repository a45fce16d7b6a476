/** When frames may be sent: guard intervals, multicast windows, channels shared
    with a peer, and the timer chains of the daemon that wait for them. Times that
    the source keeps in seconds are microseconds here. */
module Schedule {
  import opened Types
  import opened Arith
  import opened Sync
  import opened PeerModel

  const UNICAST_GUARD_TU: nat := 3
  const MULTICAST_GUARD_TU: nat := 16

  datatype Encoding = Simple | Legacy | OpClass | Unknown

  function ChanNum(c: Chan, enc: Encoding): (n: u8) {
    match enc
    case Simple => c.b0
    case Legacy => c.b1
    case OpClass => c.b0
    case Unknown => 0
  }

  const CHAN_OPCLASS_6: Chan := Chan(6, 0x51)
  const CHAN_OPCLASS_44: Chan := Chan(44, 0x80)
  const CHAN_OPCLASS_149: Chan := Chan(149, 0x80)

  /** A channel entry of each encoding with a given number: alone, behind flags, or in
      front of an operating class. */
  function ChanOf(n: u8, other: u8, enc: Encoding): (c: Chan) {
    if enc == Legacy then Chan(other, n) else Chan(n, other)
  }

  lemma ChanNumbers(n: u8, other: u8, enc: Encoding)
    ensures ChanNum(ChanOf(n, other, enc), enc) == if enc == Unknown then 0 else n
    ensures ChanNum(CHAN_OPCLASS_6, OpClass) == 6 && ChanNum(CHAN_OPCLASS_44, OpClass) == 44
    ensures ChanNum(CHAN_OPCLASS_149, OpClass) == 149 && ChanNum(CHAN_NULL, enc) == 0
  {}

  /** The node state the scheduler reads. */
  datatype Sched = Sched(sync: SyncState, enc: Encoding, sequence: seq<Chan>)

  predicate ValidSched(s: Sched) { Standard(s.sync) && |s.sequence| == CHANSEQ_LENGTH }

  /** The peer fields the scheduler reads. */
  datatype Remote = Remote(sequence: seq<Chan>, syncOffset: u64)

  predicate ValidRemote(p: Remote) { |p.sequence| == CHANSEQ_LENGTH }

  predicate SameChannel(s: Sched, now: u64, peer: Remote)
    requires ValidSched(s) && ValidRemote(peer)
  {
    var own := ChanNum(s.sequence[Slot(now, s.sync)], s.enc);
    var other := ChanNum(peer.sequence[Slot((now + peer.syncOffset) % POW64, s.sync)], s.enc);
    own != 0 && own == other
  }

  predicate IsMulticastEaw(s: Sched, now: u64)
    requires ValidSched(s)
  {
    var slot := Slot(now, s.sync);
    slot == 0 || slot == 10
  }

  /** 0 outside the guards, positive in the leading guard, negative in the trailing one. */
  function CanSendIn(s: Sched, now: u64, guard: nat): (us: int)
    requires ValidSched(s)
  {
    var next := NextAwUs(now, s.sync);
    var g := TuToUsec(guard);
    if next < g then -(g - next)
    else if (EAW_USEC - next) % POW64 < g then g - (EAW_USEC - next) % POW64
    else 0
  }

  function CanSendUnicastIn(s: Sched, peer: Remote, now: u64, guard: nat): (us: int)
    requires ValidSched(s) && ValidRemote(peer)
  {
    var next := NextAwUs(now, s.sync);
    var g := TuToUsec(guard);
    if !SameChannel(s, now, peer) then next
    else if next < g then
      if SameChannel(s, (now + EAW_USEC) % POW64, peer) then 0 else -(g - next)
    else if (EAW_USEC - next) % POW64 < g then
      if SameChannel(s, (now - EAW_USEC) % POW64, peer) then 0 else g - (EAW_USEC - next) % POW64
    else 0
  }

  // ----- positions

  /** Microseconds into the current EAW. */
  function Pos(now: u64, s: SyncState): (us: int)
    requires Timed(s)
  {
    EAW_USEC - NextAwUs(now, s)
  }

  lemma PosRange(now: u64, s: SyncState)
    requires Standard(s)
    ensures 0 <= Pos(now, s) < EAW_USEC
    ensures Pos(now, s) == (now - Epoch(s)) % EAW_USEC
  {
    WindowsAreFloors(now, s);
    hide NextAwUs, CurrentEaw, CurrentAw, NextAwTu, Epoch;
  }

  /** Waiting w microseconds moves the position, into the next slot if need be. */
  lemma Advance(now: u64, w: nat, s: SyncState)
    requires Standard(s)
    ensures var later := (now + w) % POW64; var p := Pos(now, s) + w;
            && (p < EAW_USEC ==> Slot(later, s) == Slot(now, s) && Pos(later, s) == p)
            && (EAW_USEC <= p < 2 * EAW_USEC ==>
                  Slot(later, s) == (Slot(now, s) + 1) % CHANSEQ_SLOTS && Pos(later, s) == p - EAW_USEC)
  {
    hide Slot, Pos, Epoch;
    var later, x := (now + w) % POW64, now - Epoch(s);
    var j := (now + w) / POW64;
    PosRange(now, s);
    PosRange(later, s);
    SlotIsFloor(now, s);
    SlotIsFloor(later, s);
    assert later - Epoch(s) == x + w + EAW_USEC * (-281474976710656 * j);
    WrapKeepsWindow(x + w, j);
    FloorAdvance(x, w);
  }

  lemma WrapKeepsWindow(y: int, j: int)
    ensures (y + EAW_USEC * (-281474976710656 * j)) / EAW_USEC % CHANSEQ_SLOTS == y / EAW_USEC % CHANSEQ_SLOTS
    ensures (y + EAW_USEC * (-281474976710656 * j)) % EAW_USEC == y % EAW_USEC
  {
    DivShift(y, EAW_USEC, -281474976710656 * j);
    DivShift(y / EAW_USEC, CHANSEQ_SLOTS, -17592186044416 * j);
  }

  lemma FloorAdvance(x: int, w: nat)
    ensures var p := x % EAW_USEC + w;
            && (p < EAW_USEC ==> (x + w) / EAW_USEC == x / EAW_USEC && (x + w) % EAW_USEC == p)
            && (EAW_USEC <= p < 2 * EAW_USEC ==>
                  && (x + w) / EAW_USEC % CHANSEQ_SLOTS == (x / EAW_USEC % CHANSEQ_SLOTS + 1) % CHANSEQ_SLOTS
                  && (x + w) % EAW_USEC == p - EAW_USEC)
  {
    var q, p := x / EAW_USEC, x % EAW_USEC + w;
    if p < EAW_USEC {
      DivOf(x + w, EAW_USEC, q, p);
    } else if p < 2 * EAW_USEC {
      DivOf(x + w, EAW_USEC, q + 1, p - EAW_USEC);
      DivShift(q % CHANSEQ_SLOTS + 1, CHANSEQ_SLOTS, q / CHANSEQ_SLOTS);
    }
  }

  /** The guard decision in terms of the position. */
  lemma GuardZones(s: Sched, now: u64, guard: nat)
    requires ValidSched(s) && guard <= 32
    ensures var p, g := Pos(now, s.sync), 1024 * guard;
            CanSendIn(s, now, guard) ==
              if p > EAW_USEC - g then -(g - (EAW_USEC - p)) else if p < g then g - p else 0
  {
    hide NextAwUs, CurrentEaw, CurrentAw, Slot, Epoch;
    PosRange(now, s.sync);
  }

  // ----- multicast

  predicate McastSends(s: Sched, now: u64)
    requires ValidSched(s)
  {
    IsMulticastEaw(s, now) && CanSendIn(s, now, MULTICAST_GUARD_TU) == 0
  }

  /** Multicast safety, in plain arithmetic: frames go out in windows 0 and 10 of each
      sixteen only, and there in the middle 32 time units. */
  lemma McastExact(s: Sched, now: u64)
    requires ValidSched(s)
    ensures var x := now - Epoch(s.sync);
            McastSends(s, now) <==> (x / 65536 % 16 == 0 || x / 65536 % 16 == 10) && 16384 <= x % 65536 <= 49152
  {
    hide NextAwUs, CurrentEaw, CurrentAw, Slot, Epoch, CanSendIn;
    SlotIsFloor(now, s.sync);
    PosRange(now, s.sync);
    GuardZones(s, now, MULTICAST_GUARD_TU);
  }

  /** How long the multicast timer waits when it cannot send. */
  function McastWait(s: Sched, now: u64): (us: nat)
    requires ValidSched(s)
  {
    var wait := CanSendIn(s, now, MULTICAST_GUARD_TU);
    if wait == 0 then EAW_USEC else if wait < 0 then -wait + 1024 * MULTICAST_GUARD_TU else wait
  }

  /** The timer chain started at `now` sends after at most n rearms and `budget` microseconds. */
  predicate McastWithin(s: Sched, now: u64, n: nat, budget: int)
    requires ValidSched(s)
    decreases n
  {
    0 <= budget &&
    (McastSends(s, now) ||
     (n > 0 && McastWithin(s, (now + McastWait(s, now)) % POW64, n - 1, budget - McastWait(s, now))))
  }

  lemma {:induction false} McastMono(s: Sched, now: u64, n: nat, budget: int, n': nat, budget': int)
    requires ValidSched(s) && McastWithin(s, now, n, budget) && n <= n' && budget <= budget'
    ensures McastWithin(s, now, n', budget')
    decreases n
  {
    hide McastSends, McastWait;
    if !McastSends(s, now) {
      var wait := McastWait(s, now);
      McastMono(s, (now + wait) % POW64, n - 1, budget - wait, n' - 1, budget' - wait);
    }
  }

  /** Windows until the next multicast window. */
  function ToMcast(slot: nat): (k: nat)
    requires slot < CHANSEQ_SLOTS
    ensures k <= 9
  {
    if slot == 0 then 0 else if slot <= 10 then 10 - slot else 16 - slot
  }

  /** Clear of both guards, the chain sends or moves one window closer. */
  lemma McastClearStep(s: Sched, now: u64)
    requires ValidSched(s) && 16384 <= Pos(now, s.sync) <= 49152
    ensures var k, later := ToMcast(Slot(now, s.sync)), (now + EAW_USEC) % POW64;
            && (k == 0 ==> McastSends(s, now))
            && (k > 0 ==> McastWait(s, now) == EAW_USEC && ToMcast(Slot(later, s.sync)) == k - 1)
            && Pos(later, s.sync) == Pos(now, s.sync)
  {
    hide NextAwUs, CurrentEaw, CurrentAw, Slot, Epoch;
    GuardZones(s, now, MULTICAST_GUARD_TU);
    Advance(now, EAW_USEC, s.sync);
    hide CanSendIn;
  }

  lemma {:induction false} McastFromClear(s: Sched, now: u64, k: nat)
    requires ValidSched(s) && 16384 <= Pos(now, s.sync) <= 49152 && k == ToMcast(Slot(now, s.sync))
    ensures McastWithin(s, now, k, k * EAW_USEC)
    decreases k
  {
    hide NextAwUs, CurrentEaw, CurrentAw, Slot, Epoch, Pos, CanSendIn, McastSends, McastWait, ToMcast;
    McastClearStep(s, now);
    if k > 0 { McastFromClear(s, (now + EAW_USEC) % POW64, k - 1); }
  }

  /** From the leading guard one rearm is enough to get clear. */
  lemma McastFromLeading(s: Sched, now: u64)
    requires ValidSched(s) && Pos(now, s.sync) <= 49152
    ensures var p, k := Pos(now, s.sync), ToMcast(Slot(now, s.sync));
            McastWithin(s, now, k + 1, k * EAW_USEC + if p < 16384 then 16384 - p else 0)
  {
    hide NextAwUs, CurrentEaw, CurrentAw, Slot, Epoch;
    var p, k := Pos(now, s.sync), ToMcast(Slot(now, s.sync));
    if p >= 16384 {
      McastFromClear(s, now, k);
      McastMono(s, now, k, k * EAW_USEC, k + 1, k * EAW_USEC);
    } else {
      GuardZones(s, now, MULTICAST_GUARD_TU);
      PosRange(now, s.sync);
      Advance(now, 16384 - p, s.sync);
      hide Pos, CanSendIn;
      McastFromClear(s, (now + (16384 - p)) % POW64, k);
    }
  }

  /** Multicast progress: from any instant the timer chain sends after at most 11
      rearms and in less than 10 EAWs. */
  lemma McastProgress(s: Sched, now: u64)
    requires ValidSched(s)
    ensures McastWithin(s, now, 11, 10 * EAW_USEC - 1)
  {
    hide NextAwUs, CurrentEaw, CurrentAw, Slot, Epoch;
    var p := Pos(now, s.sync);
    PosRange(now, s.sync);
    if p <= 49152 {
      McastFromLeading(s, now);
      hide Pos, McastWithin;
      var k := ToMcast(Slot(now, s.sync));
      McastMono(s, now, k + 1, k * EAW_USEC + (if p < 16384 then 16384 - p else 0), 11, 10 * EAW_USEC - 1);
    } else {
      McastFromTrailing(s, now);
    }
  }

  /** The end-of-slot wait may land in the next leading guard. */
  lemma McastTrailingWait(s: Sched, now: u64)
    requires ValidSched(s) && Pos(now, s.sync) > 49152
    ensures var p := Pos(now, s.sync);
            && p < EAW_USEC && McastWait(s, now) == p - 32768
            && Pos((now + (p - 32768)) % POW64, s.sync) == 2 * p - 98304
  {
    hide NextAwUs, CurrentEaw, CurrentAw, Slot, Epoch;
    GuardZones(s, now, MULTICAST_GUARD_TU);
    PosRange(now, s.sync);
    Advance(now, Pos(now, s.sync) - 32768, s.sync);
    hide CanSendIn;
  }

  lemma McastFromTrailing(s: Sched, now: u64)
    requires ValidSched(s) && Pos(now, s.sync) > 49152
    ensures McastWithin(s, now, 11, 10 * EAW_USEC - 1)
  {
    hide NextAwUs, CurrentEaw, CurrentAw, Slot, Epoch, Pos, CanSendIn, McastWait, McastSends, McastWithin, ToMcast;
    McastTrailingWait(s, now);
    var w := Pos(now, s.sync) - 32768;
    var later := (now + w) % POW64;
    McastFromLeading(s, later);
    var k, q := ToMcast(Slot(later, s.sync)), Pos(later, s.sync);
    var spent := k * EAW_USEC + if q < 16384 then 16384 - q else 0;
    assert spent <= 10 * EAW_USEC - 1 - w;
    McastMono(s, later, k + 1, spent, 10, 10 * EAW_USEC - 1 - w);
    McastRearm(s, now, 11, 10 * EAW_USEC - 1);
  }

  lemma McastRearm(s: Sched, now: u64, n: nat, budget: int)
    requires ValidSched(s) && n > 0 && budget >= 0
    requires McastWithin(s, (now + McastWait(s, now)) % POW64, n - 1, budget - McastWait(s, now))
    ensures McastWithin(s, now, n, budget)
  {}

  // ----- unicast

  /** Both nodes are on the same non-zero channel in this slot. */
  predicate Shared(s: Sched, peer: Remote, slot: nat)
    requires ValidSched(s) && ValidRemote(peer) && slot < CHANSEQ_SLOTS
  {
    var own := ChanNum(s.sequence[slot], s.enc);
    own != 0 && own == ChanNum(peer.sequence[slot], s.enc)
  }

  /** Nothing can be sent to a peer that has not said its channel sequence yet. */
  lemma NewPeerUnreachable(s: Sched, addr: Addr, slot: nat)
    requires ValidSched(s) && slot < CHANSEQ_SLOTS
    ensures var p := NewPeer(addr); |p.sequence| == 16 && !Shared(s, Remote(p.sequence, p.syncOffset), slot)
  {}

  /** Sending now is allowed exactly when both are on the same channel and no guard
      applies, or the guard separates two windows on the shared channel. */
  lemma UnicastAllowed(s: Sched, peer: Remote, now: u64, guard: nat)
    requires ValidSched(s) && ValidRemote(peer) && guard <= 32
    ensures var p, g := Pos(now, s.sync), 1024 * guard;
            CanSendUnicastIn(s, peer, now, guard) == 0 <==>
              && SameChannel(s, now, peer)
              && (p > EAW_USEC - g ==> SameChannel(s, (now + EAW_USEC) % POW64, peer))
              && (p < g && p <= EAW_USEC - g ==> SameChannel(s, (now - EAW_USEC) % POW64, peer))
  {
    hide NextAwUs, CurrentEaw, CurrentAw, Slot, Epoch;
    PosRange(now, s.sync);
  }

  /** The same channel, in plain arithmetic: the sequences are read at the window number
      modulo 16, the peer's at its offset. */
  lemma SameChannelExact(s: Sched, peer: Remote, now: u64)
    requires ValidSched(s) && ValidRemote(peer)
    ensures var x := now - Epoch(s.sync);
            SameChannel(s, now, peer) <==>
              var own := ChanNum(s.sequence[x / 65536 % 16], s.enc);
              own != 0 && own == ChanNum(peer.sequence[(x + peer.syncOffset) / 65536 % 16], s.enc)
  {
    hide NextAwUs, CurrentEaw, CurrentAw, Epoch, ChanNum;
    SlotIsFloor(now, s.sync);
    var later := (now + peer.syncOffset) % POW64;
    SlotIsFloor(later, s.sync);
    var j := (now + peer.syncOffset) / POW64;
    WrapKeepsWindow(now - Epoch(s.sync) + peer.syncOffset, j);
    assert later - Epoch(s.sync) == now - Epoch(s.sync) + peer.syncOffset + EAW_USEC * (-281474976710656 * j);
    hide Slot;
  }

  /** x microseconds after the start of window 0 both are on the same non-zero channel; in
      the last 3 time units of a window in the next one too, in the first 3 in the one before. */
  predicate MaySend(s: Sched, peer: Remote, x: int)
    requires ValidSched(s) && ValidRemote(peer)
  {
    var slot, p := x / 65536 % 16, x % 65536;
    && Shared(s, peer, slot)
    && (p > 62464 ==> Shared(s, peer, (slot + 1) % 16))
    && (p < 3072 ==> Shared(s, peer, (slot + 15) % 16))
  }

  /** Unicast safety, in plain arithmetic. */
  lemma UnicastExact(s: Sched, peer: Remote, now: u64)
    requires ValidSched(s) && ValidRemote(peer) && peer.syncOffset == 0
    ensures UniSends(s, peer, now) <==> MaySend(s, peer, now - Epoch(s.sync))
  {
    hide NextAwUs, CurrentEaw, CurrentAw, Epoch, CanSendUnicastIn, Slot;
    UnicastAllowed(s, peer, now, UNICAST_GUARD_TU);
    PosRange(now, s.sync);
    SlotIsFloor(now, s.sync);
    SlotShifts(now, 1, s.sync);
    SlotShifts(now, -1, s.sync);
    SameIsShared(s, peer, now);
    SameIsShared(s, peer, (now + EAW_USEC) % POW64);
    SameIsShared(s, peer, (now - EAW_USEC) % POW64);
    hide SameChannel, Shared;
    assert (now + 1 * EAW_USEC) % POW64 == (now + EAW_USEC) % POW64;
    assert (now + -1 * EAW_USEC) % POW64 == (now - EAW_USEC) % POW64;
  }

  lemma SameIsShared(s: Sched, peer: Remote, now: u64)
    requires ValidSched(s) && ValidRemote(peer) && peer.syncOffset == 0
    ensures SameChannel(s, now, peer) <==> Shared(s, peer, Slot(now, s.sync))
  {
    hide Slot;
  }

  predicate UniSends(s: Sched, peer: Remote, now: u64)
    requires ValidSched(s) && ValidRemote(peer)
  {
    CanSendUnicastIn(s, peer, now, UNICAST_GUARD_TU) == 0
  }

  function UniWait(s: Sched, peer: Remote, now: u64): (us: nat)
    requires ValidSched(s) && ValidRemote(peer)
  {
    var wait := CanSendUnicastIn(s, peer, now, UNICAST_GUARD_TU);
    if wait < 0 then -wait + 1024 * UNICAST_GUARD_TU else wait
  }

  /** The unicast timer chain started at `now` sends after at most n rearms. */
  predicate UniWithin(s: Sched, peer: Remote, now: u64, n: nat)
    requires ValidSched(s) && ValidRemote(peer)
    decreases n
  {
    UniSends(s, peer, now) || (n > 0 && UniWithin(s, peer, (now + UniWait(s, peer, now)) % POW64, n - 1))
  }

  lemma {:induction false} UniMono(s: Sched, peer: Remote, now: u64, n: nat, m: nat)
    requires ValidSched(s) && ValidRemote(peer) && UniWithin(s, peer, now, n) && n <= m
    ensures UniWithin(s, peer, now, m)
    decreases n
  {
    hide UniSends, UniWait;
    if !UniSends(s, peer, now) { UniMono(s, peer, (now + UniWait(s, peer, now)) % POW64, n - 1, m - 1); }
  }

  /** What the unicast timer does, by slot and position. */
  lemma UniZones(s: Sched, peer: Remote, now: u64)
    requires ValidSched(s) && ValidRemote(peer) && peer.syncOffset == 0
    ensures var slot, p := Slot(now, s.sync), Pos(now, s.sync);
            && slot < CHANSEQ_SLOTS
            && (!Shared(s, peer, slot) ==> !UniSends(s, peer, now) && UniWait(s, peer, now) == EAW_USEC - p)
            && (Shared(s, peer, slot) && 3072 <= p <= 62464 ==> UniSends(s, peer, now))
            && (Shared(s, peer, slot) && p < 3072 ==> UniSends(s, peer, now) || UniWait(s, peer, now) == 3072 - p)
            && (Shared(s, peer, slot) && p > 62464 ==>
                  UniSends(s, peer, now) ||
                  (UniWait(s, peer, now) == p - 59392 && !Shared(s, peer, (slot + 1) % CHANSEQ_SLOTS)))
  {
    hide NextAwUs, CurrentEaw, CurrentAw, Slot, Epoch;
    PosRange(now, s.sync);
    SlotShifts(now, 1, s.sync);
    assert (now + 1 * EAW_USEC) % POW64 == (now + EAW_USEC) % POW64;
  }

  /** At the start of a slot, k slots before a shared one. */
  lemma {:induction false} UniFromStart(s: Sched, peer: Remote, now: u64, k: nat)
    requires ValidSched(s) && ValidRemote(peer) && peer.syncOffset == 0
    requires Pos(now, s.sync) == 0 && Shared(s, peer, (Slot(now, s.sync) + k) % CHANSEQ_SLOTS)
    ensures UniWithin(s, peer, now, k + 1)
    decreases k
  {
    hide NextAwUs, CurrentEaw, CurrentAw, Slot, Epoch;
    UniZones(s, peer, now);
    var slot := Slot(now, s.sync);
    Advance(now, EAW_USEC, s.sync);
    Advance(now, 3072, s.sync);
    hide Pos, UniSends, UniWait, Shared;
    if Shared(s, peer, slot) {
      if !UniSends(s, peer, now) {
        UniZones(s, peer, (now + 3072) % POW64);
        UniMono(s, peer, (now + 3072) % POW64, 0, k);
      }
    } else {
      DivShift(slot, CHANSEQ_SLOTS, 0);
      assert k > 0;
      SlotSum(slot, k);
      UniFromStart(s, peer, (now + EAW_USEC) % POW64, k - 1);
    }
  }

  lemma SlotSum(slot: nat, k: nat)
    requires k > 0
    ensures ((slot + 1) % CHANSEQ_SLOTS + (k - 1)) % CHANSEQ_SLOTS == (slot + k) % CHANSEQ_SLOTS
  {
    var q := (slot + 1) / CHANSEQ_SLOTS;
    DivShift((slot + 1) % CHANSEQ_SLOTS + (k - 1), CHANSEQ_SLOTS, q);
  }

  /** In a slot without a shared channel, one rearm leads to the next slot's start. */
  lemma UniFromUnshared(s: Sched, peer: Remote, now: u64, k: nat)
    requires ValidSched(s) && ValidRemote(peer) && peer.syncOffset == 0 && k > 0
    requires var slot := Slot(now, s.sync);
             slot < CHANSEQ_SLOTS && !Shared(s, peer, slot) && Shared(s, peer, (slot + k) % CHANSEQ_SLOTS)
    ensures UniWithin(s, peer, now, k + 1)
  {
    hide NextAwUs, CurrentEaw, CurrentAw, Slot, Epoch;
    UniZones(s, peer, now);
    PosRange(now, s.sync);
    var slot, w := Slot(now, s.sync), EAW_USEC - Pos(now, s.sync);
    Advance(now, w, s.sync);
    hide Pos, UniSends, UniWait, Shared;
    SlotSum(slot, k);
    UniFromStart(s, peer, (now + w) % POW64, k - 1);
  }

  lemma UniRearm(s: Sched, peer: Remote, now: u64, n: nat)
    requires ValidSched(s) && ValidRemote(peer) && n > 0
    requires UniSends(s, peer, now) || UniWithin(s, peer, (now + UniWait(s, peer, now)) % POW64, n - 1)
    ensures UniWithin(s, peer, now, n)
  {}

  /** In a shared slot the guards cost at most a trip around the sequence. */
  lemma UniFromShared(s: Sched, peer: Remote, now: u64)
    requires ValidSched(s) && ValidRemote(peer) && peer.syncOffset == 0 && Shared(s, peer, Slot(now, s.sync))
    ensures UniWithin(s, peer, now, 17)
  {
    hide NextAwUs, CurrentEaw, CurrentAw, Slot, Epoch, Pos, UniSends, UniWait, Shared, UniWithin;
    UniZones(s, peer, now);
    PosRange(now, s.sync);
    if !UniSends(s, peer, now) {
      var p, w := Pos(now, s.sync), UniWait(s, peer, now);
      var later := (now + w) % POW64;
      Advance(now, w, s.sync);
      UniZones(s, peer, later);
      if p < 3072 {
        UniRearm(s, peer, later, 16);
      } else {
        assert (Slot(later, s.sync) + 15) % CHANSEQ_SLOTS == Slot(now, s.sync);
        UniFromUnshared(s, peer, later, 15);
      }
    }
    UniRearm(s, peer, now, 17);
  }

  /** Unicast progress: if the two sequences share a channel in any slot, the timer
      chain reaches a send after at most 17 rearms. */
  lemma UnicastProgress(s: Sched, peer: Remote, now: u64, shared: nat)
    requires ValidSched(s) && ValidRemote(peer) && peer.syncOffset == 0
    requires shared < CHANSEQ_SLOTS && Shared(s, peer, shared)
    ensures UniWithin(s, peer, now, 17)
  {
    hide Slot, Shared, UniWithin;
    var slot := Slot(now, s.sync);
    if Shared(s, peer, slot) {
      UniFromShared(s, peer, now);
    } else {
      var k := if shared > slot then shared - slot else 16 + shared - slot;
      assert (slot + k) % CHANSEQ_SLOTS == shared;
      UniFromUnshared(s, peer, now, k);
      UniMono(s, peer, now, k + 1, 17);
    }
  }

  /** Without a shared channel no number of rearms leads to a send. */
  lemma {:induction false} NeverUnshared(s: Sched, peer: Remote, now: u64, n: nat)
    requires ValidSched(s) && ValidRemote(peer) && peer.syncOffset == 0
    requires forall slot: nat :: slot < CHANSEQ_SLOTS ==> !Shared(s, peer, slot)
    ensures !UniWithin(s, peer, now, n)
    decreases n
  {
    UniZones(s, peer, now);
    hide Slot, Pos, UniSends, UniWait, Shared;
    if n > 0 { NeverUnshared(s, peer, (now + UniWait(s, peer, now)) % POW64, n - 1); }
  }

  /** The chain ever sends exactly if the sequences share a channel, and then soon. */
  lemma UnicastIffShared(s: Sched, peer: Remote, now: u64, n: nat)
    requires ValidSched(s) && ValidRemote(peer) && peer.syncOffset == 0 && n >= 17
    ensures UniWithin(s, peer, now, n) <==> exists slot: nat :: slot < CHANSEQ_SLOTS && Shared(s, peer, slot)
  {
    hide Shared, UniWithin;
    if slot: nat :| slot < CHANSEQ_SLOTS && Shared(s, peer, slot) {
      UnicastProgress(s, peer, now, slot);
      UniMono(s, peer, now, 17, n);
    } else {
      NeverUnshared(s, peer, now, n);
    }
  }
}
