/** The transmit side of the daemon: frames read from the host wait in a queue
    (multicast) or in one place (unicast) until their timers may send them. */
module Transmit {
  import opened Types
  import opened Sync
  import opened Schedule
  import opened CircularBuffer

  const QUEUE_LENGTH: nat := 16

  type Frame = seq<u8>

  /** A frame too short for a destination address is dropped on reading. */
  predicate Runt(f: Frame) { |f| < 6 }

  predicate Multicast(f: Frame) { !Runt(f) && f[0] % 2 == 1 }

  predicate Unicast(f: Frame) { !Runt(f) && f[0] % 2 == 0 }

  function Dst(f: Frame): (a: Addr)
    requires !Runt(f)
  {
    BytesAddr(f[..6])
  }

  /** What became of a unicast frame. */
  datatype Outcome = Sent(frame: Frame) | LoopedBack(frame: Frame) | NoPeer(frame: Frame)

  /** `read` lists all frames taken from the host, `mcast` and `uni` what was done with them. */
  datatype TxState = TxState(
    next: Option<Frame>, queue: seq<Frame>, read: seq<Frame>, mcast: seq<Frame>, uni: seq<Outcome>)

  /** What the senders look at besides the frames. */
  datatype Env = Env(self: Addr, sched: Sched, peers: map<Addr, Remote>)

  ghost predicate ValidEnv(e: Env) {
    ValidSched(e.sched) && forall a :: a in e.peers ==> ValidRemote(e.peers[a])
  }

  /** Reads host frames while there is room for either kind. */
  function DoPoll(s: TxState, input: seq<Frame>): (r: TxState)
    decreases |input|
  {
    if s.next.Some? || |s.queue| >= QUEUE_LENGTH || input == [] then s
    else
      var f := input[0];
      var t := s.(read := s.read + [f]);
      if Runt(f) then t
      else if Multicast(f) then DoPoll(t.(queue := t.queue + [f]), input[1..])
      else t.(next := Some(f))
  }

  function DoSendUnicast(s: TxState, e: Env, now: u64): (r: TxState)
    requires ValidEnv(e)
  {
    if s.next.None? || Runt(s.next.value) then s
    else
      var f := s.next.value;
      if Dst(f) == e.self then s.(next := None, uni := s.uni + [LoopedBack(f)])
      else if Dst(f) !in e.peers then s.(next := None, uni := s.uni + [NoPeer(f)])
      else if UniSends(e.sched, e.peers[Dst(f)], now) then s.(next := None, uni := s.uni + [Sent(f)])
      else s
  }

  function DoSendMulticast(s: TxState, e: Env, now: u64): (r: TxState)
    requires ValidEnv(e)
  {
    if s.queue != [] && McastSends(e.sched, now)
    then s.(queue := s.queue[1..], mcast := s.mcast + [s.queue[0]])
    else s
  }

  datatype TxStep = Poll(input: seq<Frame>) | SendUnicast(e: Env, now: u64) | SendMulticast(e: Env, now: u64)

  ghost predicate TxNext(s: TxState, step: TxStep, r: TxState) {
    match step
    case Poll(input) => r == DoPoll(s, input)
    case SendUnicast(e, now) => ValidEnv(e) && r == DoSendUnicast(s, e, now)
    case SendMulticast(e, now) => ValidEnv(e) && r == DoSendMulticast(s, e, now)
  }

  // ----- conservation

  ghost function Multicasts(read: seq<Frame>): (s: seq<Frame>) {
    if read == [] then []
    else
      var f := read[|read| - 1];
      Multicasts(read[..|read| - 1]) + if Multicast(f) then [f] else []
  }

  ghost function Unicasts(read: seq<Frame>): (s: seq<Frame>) {
    if read == [] then []
    else
      var f := read[|read| - 1];
      Unicasts(read[..|read| - 1]) + if Unicast(f) then [f] else []
  }

  ghost function FramesOf(uni: seq<Outcome>): (s: seq<Frame>) {
    if uni == [] then [] else FramesOf(uni[..|uni| - 1]) + [uni[|uni| - 1].frame]
  }

  ghost function Pending(s: TxState): (p: seq<Frame>) { if s.next.Some? then [s.next.value] else [] }

  /** Every multicast frame read was sent, in order and once, or is still queued in
      order; every unicast frame was dealt with, in order and once, or is pending. */
  ghost predicate Conserved(s: TxState) {
    && Multicasts(s.read) == s.mcast + s.queue
    && Unicasts(s.read) == FramesOf(s.uni) + Pending(s)
    && |s.queue| <= QUEUE_LENGTH && (s.next.Some? ==> Unicast(s.next.value))
  }

  lemma ReadOne(read: seq<Frame>, f: Frame)
    ensures Multicasts(read + [f]) == Multicasts(read) + if Multicast(f) then [f] else []
    ensures Unicasts(read + [f]) == Unicasts(read) + if Unicast(f) then [f] else []
  {
    assert (read + [f])[..|read|] == read;
  }

  lemma OutcomeOne(uni: seq<Outcome>, o: Outcome)
    ensures FramesOf(uni + [o]) == FramesOf(uni) + [o.frame]
  {
    assert (uni + [o])[..|uni|] == uni;
  }

  lemma ReadConserves(s: TxState, f: Frame)
    requires Conserved(s) && s.next.None? && |s.queue| < QUEUE_LENGTH
    ensures var t := s.(read := s.read + [f]);
            && (Runt(f) ==> Conserved(t))
            && (Multicast(f) ==> Conserved(t.(queue := t.queue + [f])))
            && (Unicast(f) ==> Conserved(t.(next := Some(f))))
  {
    hide Multicasts, Unicasts, FramesOf;
    ReadOne(s.read, f);
    var m, q, done := s.mcast, s.queue, FramesOf(s.uni);
    assert m + q + [f] == m + (q + [f]);
    assert done + [] == done;
    assert m + q + [] == m + q;
  }

  lemma {:induction false} PollConserves(s: TxState, input: seq<Frame>)
    requires Conserved(s)
    ensures Conserved(DoPoll(s, input))
    decreases |input|
  {
    hide Conserved;
    if s.next.None? && |s.queue| < QUEUE_LENGTH && input != [] {
      var f := input[0];
      ReadConserves(s, f);
      if Multicast(f) {
        PollConserves(s.(read := s.read + [f], queue := s.queue + [f]), input[1..]);
      }
    }
  }

  lemma UnicastConserves(s: TxState, o: Outcome)
    requires Conserved(s) && s.next.Some? && o.frame == s.next.value
    ensures Conserved(s.(next := None, uni := s.uni + [o]))
  {
    hide Multicasts, Unicasts, FramesOf;
    OutcomeOne(s.uni, o);
    assert FramesOf(s.uni) + [o.frame] + [] == FramesOf(s.uni) + [o.frame];
  }

  lemma MulticastConserves(s: TxState)
    requires Conserved(s) && s.queue != []
    ensures Conserved(s.(queue := s.queue[1..], mcast := s.mcast + [s.queue[0]]))
  {
    hide Multicasts, Unicasts, FramesOf;
    assert s.mcast + [s.queue[0]] + s.queue[1..] == s.mcast + s.queue;
  }

  lemma StepConserves(s: TxState, step: TxStep, r: TxState)
    requires Conserved(s) && TxNext(s, step, r)
    ensures Conserved(r)
  {
    hide Conserved, DoPoll, UniSends, McastSends;
    match step
    case Poll(input) => PollConserves(s, input);
    case SendUnicast(e, now) =>
      if s.next.Some? && !Runt(s.next.value) {
        var f := s.next.value;
        UnicastConserves(s, LoopedBack(f));
        UnicastConserves(s, NoPeer(f));
        UnicastConserves(s, Sent(f));
      }
    case SendMulticast(e, now) => if s.queue != [] { MulticastConserves(s); }
  }

  ghost predicate IsTxRun(states: seq<TxState>, steps: seq<TxStep>) {
    && |states| == |steps| + 1 && states[0] == TxState(None, [], [], [], [])
    && forall i :: 0 <= i < |steps| ==> TxNext(states[i], steps[i], states[i + 1])
  }

  /** Over every run of reading and sending steps nothing is lost, repeated or reordered. */
  lemma {:induction false} RunConserves(states: seq<TxState>, steps: seq<TxStep>, i: nat)
    requires IsTxRun(states, steps) && i < |states|
    ensures Conserved(states[i])
    decreases i
  {
    hide TxNext;
    if i > 0 {
      RunConserves(states, steps, i - 1);
      assert TxNext(states[i - 1], steps[i - 1], states[i - 1 + 1]);
      StepConserves(states[i - 1], steps[i - 1], states[i]);
    }
  }

  // ----- what each step does

  /** The group bit of the destination decides. */
  lemma GroupBit(f: Frame)
    ensures Multicast(f) <==> |f| >= 6 && Dst(f) / 0x100_0000_0000 % 2 == 1
    ensures Unicast(f) <==> |f| >= 6 && Dst(f) / 0x100_0000_0000 % 2 == 0
  {
    if |f| >= 6 {
      var b := f[..6];
      var low: nat := Shift(Shift(Shift(Shift(b[1], b[2]), b[3]), b[4]), b[5]);
      assert Dst(f) == b[0] * 0x100_0000_0000 + low;
    }
  }

  /** Reading takes the first k frames the host has. All but the last are multicast, and
      it stops because there are no more, a unicast frame waits, the queue is full, or
      the last one was too short. */
  lemma {:induction false} PollReads(s: TxState, input: seq<Frame>) returns (k: nat)
    ensures k <= |input| && DoPoll(s, input).read == s.read + input[..k]
    ensures s.next.Some? || |s.queue| >= 16 ==> k == 0
    ensures forall i :: 0 <= i < k - 1 ==> Multicast(input[i])
    ensures var r := DoPoll(s, input);
            k < |input| ==> r.next.Some? || |r.queue| >= 16 || (k > 0 && |input[k - 1]| < 6)
    decreases |input|
  {
    k := 0;
    if s.next.None? && |s.queue| < QUEUE_LENGTH && input != [] {
      var f := input[0];
      k := 1;
      assert input[..1] == [f];
      if Multicast(f) {
        var t := s.(read := s.read + [f], queue := s.queue + [f]);
        var j := PollReads(t, input[1..]);
        k := j + 1;
        assert [f] + input[1..][..j] == input[..k];
        assert s.read + [f] + input[1..][..j] == s.read + ([f] + input[1..][..j]);
      }
    }
  }

  /** What becomes of the pending unicast frame: to the node's own address it is looped
      back, to an unknown address dropped; to a peer it is sent exactly if both nodes are
      on the same non-zero channel, also across a window's edge that is near, and else
      stays as it is. */
  lemma UnicastStep(s: TxState, e: Env, now: u64)
    requires ValidEnv(e) && s.next.Some? && |s.next.value| >= 6
    ensures var f, dst, r := s.next.value, Dst(s.next.value), DoSendUnicast(s, e, now);
            && (dst == e.self ==> r == s.(next := None, uni := s.uni + [LoopedBack(f)]))
            && (dst != e.self && dst !in e.peers ==> r == s.(next := None, uni := s.uni + [NoPeer(f)]))
            && (dst != e.self && dst in e.peers ==> r == s || r == s.(next := None, uni := s.uni + [Sent(f)]))
            && (dst != e.self && dst in e.peers && e.peers[dst].syncOffset == 0 ==>
                  (r.next.None? <==> MaySend(e.sched, e.peers[dst], now - Epoch(e.sched.sync))))
  {
    var dst := Dst(s.next.value);
    if dst in e.peers && e.peers[dst].syncOffset == 0 { UnicastExact(e.sched, e.peers[dst], now); }
    hide UniSends, MaySend;
  }

  /** The unicast timer runs, and again after the wait it is armed with, up to n times. */
  ghost function UniChain(s: TxState, e: Env, now: u64, n: nat): (r: TxState)
    requires ValidEnv(e)
    decreases n
  {
    var r := DoSendUnicast(s, e, now);
    if n == 0 || r.next.None? || Runt(r.next.value) || Dst(r.next.value) !in e.peers then r
    else UniChain(r, e, (now + UniWait(e.sched, e.peers[Dst(r.next.value)], now)) % POW64, n - 1)
  }

  lemma PeerStep(s: TxState, e: Env, now: u64)
    requires ValidEnv(e) && s.next.Some? && |s.next.value| >= 6
    requires Dst(s.next.value) != e.self && Dst(s.next.value) in e.peers
    ensures var f := s.next.value;
            DoSendUnicast(s, e, now) ==
              if UniSends(e.sched, e.peers[Dst(f)], now) then s.(next := None, uni := s.uni + [Sent(f)]) else s
  {
    hide UniSends, Dst;
  }

  lemma UniChainStep(s: TxState, e: Env, now: u64, n: nat)
    requires ValidEnv(e) && s.next.Some? && |s.next.value| >= 6
    requires Dst(s.next.value) != e.self && Dst(s.next.value) in e.peers
    ensures var f, peer := s.next.value, e.peers[Dst(s.next.value)];
            UniChain(s, e, now, n) ==
              if UniSends(e.sched, peer, now) then s.(next := None, uni := s.uni + [Sent(f)])
              else if n == 0 then s
              else UniChain(s, e, (now + UniWait(e.sched, peer, now)) % POW64, n - 1)
  {
    PeerStep(s, e, now);
    hide UniSends, UniWait, DoSendUnicast, Dst;
  }

  lemma {:induction false} UniChainSends(s: TxState, e: Env, now: u64, n: nat)
    requires ValidEnv(e) && s.next.Some? && |s.next.value| >= 6
    requires Dst(s.next.value) != e.self && Dst(s.next.value) in e.peers
    requires UniWithin(e.sched, e.peers[Dst(s.next.value)], now, n)
    ensures UniChain(s, e, now, n) == s.(next := None, uni := s.uni + [Sent(s.next.value)])
    decreases n
  {
    hide UniSends, UniWait, UniChain, Dst;
    UniChainStep(s, e, now, n);
    var peer := e.peers[Dst(s.next.value)];
    if !UniSends(e.sched, peer, now) {
      UniChainSends(s, e, (now + UniWait(e.sched, peer, now)) % POW64, n - 1);
    }
  }

  lemma {:induction false} UniChainWaits(s: TxState, e: Env, now: u64, n: nat)
    requires ValidEnv(e) && s.next.Some? && |s.next.value| >= 6
    requires Dst(s.next.value) != e.self && Dst(s.next.value) in e.peers
    requires !UniWithin(e.sched, e.peers[Dst(s.next.value)], now, n)
    ensures UniChain(s, e, now, n) == s
    decreases n
  {
    hide UniSends, UniWait, UniChain, Dst;
    UniChainStep(s, e, now, n);
    if n > 0 {
      UniChainWaits(s, e, (now + UniWait(e.sched, e.peers[Dst(s.next.value)], now)) % POW64, n - 1);
    }
  }

  /** A frame to a peer is sent by the timer's runs, after at most 17 rearms, if and only if
      the two channel sequences share a channel; until then nothing changes. */
  lemma UnicastDelivers(s: TxState, e: Env, now: u64, n: nat)
    requires ValidEnv(e) && s.next.Some? && |s.next.value| >= 6 && n >= 17
    requires Dst(s.next.value) != e.self && Dst(s.next.value) in e.peers && e.peers[Dst(s.next.value)].syncOffset == 0
    ensures var peer := e.peers[Dst(s.next.value)];
            UniChain(s, e, now, n) ==
              if exists slot: nat :: slot < CHANSEQ_SLOTS && Shared(e.sched, peer, slot)
              then s.(next := None, uni := s.uni + [Sent(s.next.value)]) else s
  {
    hide UniChain, UniWithin, Shared;
    UnicastIffShared(e.sched, e.peers[Dst(s.next.value)], now, n);
    if UniWithin(e.sched, e.peers[Dst(s.next.value)], now, n) {
      UniChainSends(s, e, now, n);
    } else {
      UniChainWaits(s, e, now, n);
    }
  }

  /** The head of the queue is sent exactly in the middle of windows 0 and 10. */
  lemma MulticastStep(s: TxState, e: Env, now: u64)
    requires ValidEnv(e)
    ensures var r, x := DoSendMulticast(s, e, now), now - Epoch(e.sched.sync);
            var open := (x / 65536 % 16 == 0 || x / 65536 % 16 == 10) && 16384 <= x % 65536 <= 49152;
            r == if s.queue != [] && open then s.(queue := s.queue[1..], mcast := s.mcast + [s.queue[0]]) else s
  {
    McastExact(e.sched, now);
    hide McastSends, Epoch;
  }

  /** The multicast timer runs until it has sent a frame, up to n rearms. */
  ghost function McastChain(s: TxState, e: Env, now: u64, n: nat): (r: TxState)
    requires ValidEnv(e)
    decreases n
  {
    var r := DoSendMulticast(s, e, now);
    if n == 0 || r != s then r else McastChain(s, e, (now + McastWait(e.sched, now)) % POW64, n - 1)
  }

  lemma {:induction false} McastChainSends(s: TxState, e: Env, now: u64, n: nat, budget: int)
    requires ValidEnv(e) && s.queue != [] && McastWithin(e.sched, now, n, budget)
    ensures McastChain(s, e, now, n) == s.(queue := s.queue[1..], mcast := s.mcast + [s.queue[0]])
    decreases n
  {
    hide McastSends, McastWait;
    if !McastSends(e.sched, now) {
      var wait := McastWait(e.sched, now);
      McastChainSends(s, e, (now + wait) % POW64, n - 1, budget - wait);
    } else {
      assert |s.queue[1..]| < |s.queue|;
    }
  }

  /** The oldest multicast frame is sent after at most 11 rearms, whenever it is queued. */
  lemma MulticastDelivers(s: TxState, e: Env, now: u64)
    requires ValidEnv(e) && s.queue != []
    ensures McastChain(s, e, now, 11) == s.(queue := s.queue[1..], mcast := s.mcast + [s.queue[0]])
  {
    hide McastChain, McastWithin;
    McastProgress(e.sched, now);
    McastChainSends(s, e, now, 11, 10 * EAW_USEC - 1);
  }

  // ----- the daemon's callbacks

  class Transmitter {
    const queue: Ring<Frame>
    var next: Option<Frame>
    var read: seq<Frame>
    var mcast: seq<Frame>
    var uni: seq<Outcome>

    ghost predicate Valid()
      reads this, queue, queue.buffer
    {
      queue.Valid() && queue.buffer.Length == QUEUE_LENGTH && (next.Some? ==> Unicast(next.value))
    }

    ghost function State(): (s: TxState)
      reads this, queue
    {
      TxState(next, queue.fifo, read, mcast, uni)
    }

    constructor ()
      ensures Valid() && fresh(queue) && fresh(queue.buffer) && State() == TxState(None, [], [], [], [])
    {
      queue := new Ring<Frame>(QUEUE_LENGTH);
      next, read, mcast, uni := None, [], [], [];
    }

    /** Fills the transmit queues from the host; `input` is what the host would deliver. */
    method Poll(input: seq<Frame>) returns (newUnicast: bool, newMulticast: bool)
      requires Valid()
      modifies this, queue, queue.buffer
      ensures Valid() && State() == DoPoll(old(State()), input)
      ensures newUnicast <==> next != old(next)
      ensures newMulticast <==> queue.fifo != old(queue.fifo)
    {
      newUnicast, newMulticast := false, false;
      var i := 0;
      while next.None? && !queue.IsFull()
        invariant Valid() && 0 <= i <= |input|
        invariant DoPoll(State(), input[i..]) == DoPoll(old(State()), input)
        invariant newUnicast <==> next != old(next)
        invariant next.None? ==> next == old(next)
        invariant newMulticast <==> queue.fifo != old(queue.fifo)
        invariant old(queue.fifo) <= queue.fifo
        decreases |input| - i, next.None?
      {
        if i == |input| { return; }
        var f := input[i];
        assert input[i..][0] == f && input[i..][1..] == input[i + 1..];
        i := i + 1;
        read := read + [f];
        if Runt(f) { return; }
        if Multicast(f) {
          queue.Put(f);
          newMulticast := true;
        } else {
          next := Some(f);
          newUnicast := true;
        }
      }
    }

    /** Unicast timer. The wait until it has to run again, if a frame stays pending. */
    method SendUnicast(e: Env, now: u64) returns (rearm: Option<nat>)
      requires Valid() && ValidEnv(e)
      modifies this
      ensures Valid() && State() == DoSendUnicast(old(State()), e, now)
      ensures next.None? ==> rearm == None
      ensures next.Some? ==>
                var dst := Dst(next.value); dst in e.peers && rearm == Some(UniWait(e.sched, e.peers[dst], now))
    {
      hide CanSendUnicastIn;
      rearm := None;
      if next.Some? {
        var f := next.value;
        var dst := Dst(f);
        if dst == e.self {
          uni, next := uni + [LoopedBack(f)], None;
        } else if dst !in e.peers {
          uni, next := uni + [NoPeer(f)], None;
        } else {
          var wait := CanSendUnicastIn(e.sched, e.peers[dst], now, UNICAST_GUARD_TU);
          if wait == 0 {
            uni, next := uni + [Sent(f)], None;
          } else {
            if wait < 0 { wait := -wait + 1024 * UNICAST_GUARD_TU; }
            rearm := Some(wait);
          }
        }
      }
    }

    /** Multicast timer. Without a send, it waits as McastWait says; after a send it
        runs again at once while frames are queued. */
    method SendMulticast(e: Env, now: u64) returns (rearm: Option<nat>)
      requires Valid() && ValidEnv(e)
      modifies this, queue
      ensures Valid() && State() == DoSendMulticast(old(State()), e, now)
      ensures queue.fifo == [] ==> rearm == None
      ensures queue.fifo != [] ==> rearm == Some(if McastSends(e.sched, now) then 0 else McastWait(e.sched, now))
    {
      hide CanSendIn;
      var wait := 0;
      if !queue.IsEmpty() {
        wait := CanSendIn(e.sched, now, MULTICAST_GUARD_TU);
        if IsMulticastEaw(e.sched, now) && wait == 0 {
          var ok, f := queue.Get(false);
          mcast := mcast + [f];
        } else {
          if wait == 0 {
            wait := EAW_USEC;
          } else if wait < 0 {
            wait := -wait + 1024 * MULTICAST_GUARD_TU;
          }
        }
      }
      rearm := if queue.IsEmpty() then None else Some(wait);
    }
  }
}
