/** Availability windows (AW) and extended availability windows (EAW) computed
    from a 64-bit microsecond clock. */
module Sync {
  import opened Types
  import opened Arith

  const AW_PERIOD: u16 := 16
  const PRESENCE_MODE: u8 := 4
  /** Microseconds in an EAW of 64 time units. */
  const EAW_USEC: nat := 65536
  /** EAW counters repeat after this many windows, slots after 16. */
  const EAW_CYCLE: nat := 16384
  /** Microseconds after which an AW counter repeats. */
  const CYCLE_USEC: nat := 1073741824

  datatype SyncState = SyncState(
    awCounter: u16,
    lastUpdate: u64,
    awPeriod: u16,
    presenceMode: u8,
    measErr: u64,
    measTotal: u64)

  function TuToUsec(tu: int): (us: u64) { (1024 * tu) % POW64 }

  function UsecToTu(us: u64): (tu: u64) { us / 1024 }

  function InitSync(now: u64): (s: SyncState) { SyncState(0, now, AW_PERIOD, PRESENCE_MODE, 0, 0) }

  /** The daemon only ever divides by these, and both are set once and stay positive. */
  predicate Timed(s: SyncState) { s.awPeriod > 0 && s.presenceMode > 0 }

  function EawPeriod(s: SyncState): (p: nat)
    ensures Timed(s) ==> p > 0
  {
    MulPositive(s.presenceMode, s.awPeriod);
    s.presenceMode * s.awPeriod
  }

  /** Microseconds since the last update, by 64-bit subtraction. */
  function Since(now: u64, s: SyncState): (us: u64) { (now - s.lastUpdate) % POW64 }

  function NextAwTu(now: u64, s: SyncState): (tu: u16)
    requires Timed(s)
  {
    (EawPeriod(s) - UsecToTu(Since(now, s)) % EawPeriod(s)) % POW16
  }

  function NextAwUs(now: u64, s: SyncState): (us: u64)
    requires Timed(s)
  {
    var p := 1024 * EawPeriod(s);
    (p - Since(now, s) % p) % POW64
  }

  function CurrentAw(now: u64, s: SyncState): (aw: u16)
    requires Timed(s)
  {
    var tu: nat := UsecToTu(Since(now, s));
    var p: nat := EawPeriod(s);
    ((s.awCounter as int + tu % p / s.awPeriod + s.presenceMode * (tu / p)) % POW64) % POW16
  }

  function CurrentEaw(now: u64, s: SyncState): (eaw: u16)
    requires Timed(s)
  {
    CurrentAw(now, s) / s.presenceMode
  }

  function SyncErrorTu(now: u64, timeToNextAw: u16, awCounter: u16, s: SyncState): (tu: int)
    requires Timed(s)
  {
    (awCounter / s.presenceMode - CurrentEaw(now, s)) * s.presenceMode * s.awPeriod - (timeToNextAw - NextAwTu(now, s))
  }

  /** Takes over the window position a sync master advertised. */
  function UpdateLast(now: u64, timeToNextAw: u16, awCounter: u16, s: SyncState): (r: SyncState) {
    s.(lastUpdate := (now - TuToUsec(EawPeriod(s) - timeToNextAw)) % POW64,
       awCounter := awCounter - awCounter % 4)
  }

  /** What every reachable state satisfies. */
  predicate Standard(s: SyncState) {
    s.awPeriod == AW_PERIOD && s.presenceMode == PRESENCE_MODE && s.awCounter % 4 == 0
  }

  /** A window position advertised by the sync master, and when it arrived. */
  datatype Advert = Advert(now: u64, timeToNextAw: u16, awCounter: u16)

  function AfterAdverts(s: SyncState, adverts: seq<Advert>): (r: SyncState)
    decreases |adverts|
  {
    if adverts == [] then s
    else var a := adverts[0]; AfterAdverts(UpdateLast(a.now, a.timeToNextAw, a.awCounter, s), adverts[1..])
  }

  lemma {:induction false} UpdatesKeepStandard(s: SyncState, adverts: seq<Advert>)
    requires Standard(s)
    ensures Standard(AfterAdverts(s, adverts))
    decreases |adverts|
  {
    if adverts != [] {
      var a := adverts[0];
      UpdatesKeepStandard(UpdateLast(a.now, a.timeToNextAw, a.awCounter, s), adverts[1..]);
    }
  }

  /** From the initial state, whatever is advertised: the windows keep their standard
      lengths and the counter stays at the start of an EAW. */
  lemma ReachableIsStandard(start: u64, adverts: seq<Advert>)
    ensures Standard(AfterAdverts(InitSync(start), adverts))
  {
    UpdatesKeepStandard(InitSync(start), adverts);
  }

  // ----- the split formula

  /** The counter arithmetic, split to avoid large products, counts windows: the
      stored counter plus the whole AWs elapsed, modulo 2^16. */
  lemma CurrentAwCounts(now: u64, s: SyncState)
    requires Timed(s)
    ensures CurrentAw(now, s) == (s.awCounter as int + UsecToTu(Since(now, s)) / s.awPeriod) % POW16
  {
    hide Since;
    AwSum(s.awCounter, UsecToTu(Since(now, s)), s.awPeriod, s.presenceMode);
  }

  lemma AwSum(c: nat, tu: nat, a: nat, m: nat)
    requires a > 0 && m > 0 && c + tu < POW64
    ensures m * a > 0 && ((c + tu % (m * a) / a + m * (tu / (m * a))) % POW64) % POW16 == (c + tu / a) % POW16
  {
    SplitDiv(tu, a, m);
    DivLe(tu, a);
    var whole: nat := tu / a;
    assert (c + whole) % POW64 == c + whole;
  }

  // ----- windows as plain floor division

  /** The instant, on the node's own clock, at which the AW counter was zero. */
  function Epoch(s: SyncState): (us: int) { s.lastUpdate - 16384 * s.awCounter }

  /** Fixed-width arithmetic is floor division: however the 64-bit difference and
      the 16-bit counter wrap, the windows are those counted from the epoch. */
  lemma WindowsAreFloors(now: u64, s: SyncState)
    requires Standard(s)
    ensures CurrentAw(now, s) == (now - Epoch(s)) / 16384 % POW16
    ensures CurrentEaw(now, s) == (now - Epoch(s)) / EAW_USEC % EAW_CYCLE
    ensures NextAwTu(now, s) == 64 - (now - Epoch(s)) / 1024 % 64
    ensures NextAwUs(now, s) == EAW_USEC - (now - Epoch(s)) % EAW_USEC
  {
    StandardAw(now, s);
    StandardCountdown(now, s);
    hide CurrentAw, NextAwTu, NextAwUs;
    var d, c := now - s.lastUpdate, s.awCounter / 4;
    var k := if d < 0 then 1 else 0;
    assert Since(now, s) == d + POW64 * k;
    FloorAw(d, k, c);
    FloorTu(d, k, c);
  }

  lemma StandardAw(now: u64, s: SyncState)
    requires Standard(s)
    ensures CurrentAw(now, s) == (s.awCounter as int + Since(now, s) / 1024 / 16) % POW16
  {
    CurrentAwCounts(now, s);
    hide Since, CurrentAw;
  }

  lemma StandardCountdown(now: u64, s: SyncState)
    requires Standard(s)
    ensures NextAwTu(now, s) == 64 - Since(now, s) / 1024 % 64
    ensures NextAwUs(now, s) == EAW_USEC - Since(now, s) % EAW_USEC
  {
    hide Since;
  }

  lemma FloorAw(d: int, k: int, c: int)
    requires 0 <= d + POW64 * k
    ensures (4 * c + (d + POW64 * k) / 1024 / 16) % POW16 == (d + 65536 * c) / 16384 % POW16
    ensures (d + 65536 * c) / 16384 % POW16 / 4 == (d + 65536 * c) / EAW_USEC % EAW_CYCLE
  {
    var e := d + 65536 * c;
    DivDiv(d + POW64 * k, 1024, 16);
    DivShift(e, 16384, 1125899906842624 * k - 4 * c);
    DivShift(e / 16384, POW16, 17179869184 * k);
    DivDiv(e, 16384, POW16);
    DivDiv(e, EAW_USEC, EAW_CYCLE);
    DivDiv(e % CYCLE_USEC, 16384, 4);
  }

  lemma FloorTu(d: int, k: int, c: int)
    ensures (d + POW64 * k) / 1024 % 64 == (d + 65536 * c) / 1024 % 64
    ensures (d + POW64 * k) % EAW_USEC == (d + 65536 * c) % EAW_USEC
  {
    var e := d + 65536 * c;
    DivShift(e, 1024, 18014398509481984 * k - 64 * c);
    DivShift(e / 1024, 64, 281474976710656 * k - c);
    DivShift(e, EAW_USEC, 281474976710656 * k - c);
  }

  /** A node starts at the beginning of window 0. */
  lemma StartsAtZero(now: u64)
    ensures var s := InitSync(now);
            Epoch(s) == now && CurrentAw(now, s) == 0 && NextAwTu(now, s) == 64 && s.measErr == 0 && s.measTotal == 0
  {
    WindowsAreFloors(now, InitSync(now));
    hide CurrentAw, NextAwTu;
  }

  /** The sync error is how many time units the advertised position is ahead of the own
      one, both counted from the start of window 0. */
  lemma ErrorIsDistance(now: u64, timeToNextAw: u16, awCounter: u16, s: SyncState)
    requires Standard(s)
    ensures SyncErrorTu(now, timeToNextAw, awCounter, s)
              == (64 * (awCounter / 4) + 64 - timeToNextAw) - (now - Epoch(s)) / 1024 % (64 * EAW_CYCLE)
  {
    WindowsAreFloors(now, s);
    hide CurrentAw, CurrentEaw, NextAwTu, NextAwUs, Epoch;
    var tu := (now - Epoch(s)) / 1024;
    DivDiv(now - Epoch(s), 1024, 64);
    DivDiv(tu, 64, EAW_CYCLE);
    WindowParts(tu);
  }

  lemma WindowParts(tu: int)
    ensures tu % (64 * EAW_CYCLE) == 64 * (tu / 64 % EAW_CYCLE) + tu % 64
  {
    var q := tu / 64;
    DivOf(tu, 64 * EAW_CYCLE, q / EAW_CYCLE, 64 * (q % EAW_CYCLE) + tu % 64);
  }

  const CHANSEQ_SLOTS: nat := 16

  /** The position in the channel sequence. */
  function Slot(now: u64, s: SyncState): (slot: nat)
    requires Timed(s)
    ensures slot < CHANSEQ_SLOTS
  {
    CurrentEaw(now, s) % CHANSEQ_SLOTS
  }

  lemma SlotIsFloor(now: u64, s: SyncState)
    requires Standard(s)
    ensures Slot(now, s) == (now - Epoch(s)) / EAW_USEC % CHANSEQ_SLOTS
  {
    WindowsAreFloors(now, s);
    var e := (now - Epoch(s)) / EAW_USEC;
    DivShift(e % EAW_CYCLE, CHANSEQ_SLOTS, 1024 * (e / EAW_CYCLE));
  }

  /** Moving the clock by n EAWs moves the slot by n modulo 16, also when the
      64-bit clock wraps or falls behind the last update. */
  lemma SlotShifts(now: u64, n: int, s: SyncState)
    requires Standard(s)
    ensures Slot((now + n * EAW_USEC) % POW64, s) == (Slot(now, s) + n) % CHANSEQ_SLOTS
    ensures NextAwUs((now + n * EAW_USEC) % POW64, s) == NextAwUs(now, s)
  {
    var t := now - Epoch(s);
    var w := (now + n * EAW_USEC) / POW64;
    var later := (now + n * EAW_USEC) % POW64;
    assert later - Epoch(s) == t + EAW_USEC * (n - 281474976710656 * w);
    SlotIsFloor(now, s);
    SlotIsFloor(later, s);
    WindowsAreFloors(now, s);
    WindowsAreFloors(later, s);
    DivShift(t, EAW_USEC, n - 281474976710656 * w);
    DivShift(t / EAW_USEC + n, CHANSEQ_SLOTS, -17592186044416 * w);
    var q := t / EAW_USEC;
    DivShift(q % CHANSEQ_SLOTS + n, CHANSEQ_SLOTS, q / CHANSEQ_SLOTS);
  }
}
