/**
  The ten-minute gate of the periodic rotation against the delay of the network.  The
  gate is all that keeps an end from overwriting a pending slot; it is enough exactly
  when packets are never more than half its length on their way.
 */
module RekeyTiming {
  import opened Basics
  import opened RekeyProtocol
  import opened RekeyNode

  /** Seconds. */
  type Time = int

  /** One end's clock work: its last rotation, and when it sent each of its ephemerals. */
  datatype Watch = Watch(last: Option<Time>, at: seq<Time>)

  datatype Timed = Timed(w: World, a: Watch, b: Watch) {
    function Swap(): Timed { Timed(w.Swap(), b, a) }
  }

  datatype Tick = Tick(now: Time, step: Step)

  /** An end that initiated or processed a rekey packet notes the time; so does one that sent. */
  function Watched(before: Half, after: Half, watch: Watch, now: Time): Watch {
    Watch(
      if after.initiated > before.initiated || |after.used| > |before.used| then Some(now) else watch.last,
      if |after.sent| > |before.sent| then watch.at + [now] else watch.at)
  }

  function NextTimed(s: Suite, t: Timed, tick: Tick): Timed {
    var w' := Next(s, t.w, tick.step);
    Timed(w', Watched(t.w.a, w'.a, t.a, tick.now), Watched(t.w.b, w'.b, t.b, tick.now))
  }

  function RunTimed(s: Suite, t: Timed, ticks: seq<Tick>): Timed
    decreases |ticks|
  {
    if ticks == [] then t else RunTimed(s, NextTimed(s, t, ticks[0]), ticks[1..])
  }

  /** A new connection; the times of the last rotations may be left from an older one. */
  function StartTimed(s: Suite, idA: PrivateKey, idB: PrivateKey, lastA: Option<Time>, lastB: Option<Time>): Timed {
    Timed(Start(s, idA, idB), Watch(lastA, []), Watch(lastB, []))
  }

  /** An end initiates only when its gate is open. */
  predicate Gated(t: Timed, tick: Tick) {
    tick.step.Initiate? ==> Open(if tick.step.side == A then t.a.last else t.b.last, tick.now)
  }

  // ---------------------------------------------------------------------------
  // The ticks are what a node's sweep and its handler do to their records.
  // ---------------------------------------------------------------------------

  /** A half as its node's record of the peer's address. */
  function RecordOf(h: Half, watch: Watch): AddrRecord {
    AddrRecord(Some(h.end.key), h.end.slot, watch.last, Some(h.out))
  }

  /** A sweep of an end is an initiation tick if its gate is open, and nothing otherwise. */
  lemma SweepIsTick(s: Suite, t: Timed, now: Time, eph: PrivateKey)
    ensures AfterSweep(s, t.w.a.end.identity, RecordOf(t.w.a, t.a), Some(eph), now) ==
            if Gated(t, Tick(now, Initiate(A, eph)))
            then (var t' := NextTimed(s, t, Tick(now, Initiate(A, eph))); RecordOf(t'.w.a, t'.a))
            else RecordOf(t.w.a, t.a)
    ensures AfterSweep(s, t.w.b.end.identity, RecordOf(t.w.b, t.b), Some(eph), now) ==
            if Gated(t, Tick(now, Initiate(B, eph)))
            then (var t' := NextTimed(s, t, Tick(now, Initiate(B, eph))); RecordOf(t'.w.b, t'.b))
            else RecordOf(t.w.b, t.b)
  {
  }

  /** A rekey packet that is delivered is handled as the node does, its time noted if there was a key. */
  lemma DeliveryIsTick(s: Suite, t: Timed, now: Time, eph: PrivateKey)
    requires t.w.b.out != [] && t.w.b.out[0].Rekey?
    ensures var t' := NextTimed(s, t, Tick(now, Deliver(A, eph)));
            var r := OnRekey(s, t.w.a.end, t.w.b.out[0].ephemeral, eph);
            RecordOf(t'.w.a, t'.a) ==
            AddrRecord(Some(r.end.key), r.end.slot, if t.w.a.end.key.Some? then Some(now) else t.a.last, Some(t.w.a.out + r.sends))
  {
    assert t.w.a.out + [] == t.w.a.out;
  }

  /** No rekey packet of `me` has been on its way for more than `delay`. */
  predicate Young(me: Half, watch: Watch, peer: Half, now: Time, delay: Time) {
    forall k :: |peer.used| <= k < |watch.at| ==> now - watch.at[k] <= delay
  }

  predicate Prompt(t: Timed, now: Time, delay: Time) {
    Young(t.w.a, t.a, t.w.b, now, delay) && Young(t.w.b, t.b, t.w.a, now, delay)
  }

  /** A run of two nodes under one clock, with the gate at both ends and a prompt network. */
  predicate Proper(s: Suite, t: Timed, ticks: seq<Tick>, delay: Time, clock: Time)
    decreases |ticks|
  {
    ticks == [] ||
    (&& clock <= ticks[0].now && Gated(t, ticks[0]) && Prompt(t, ticks[0].now, delay)
     && Proper(s, NextTimed(s, t, ticks[0]), ticks[1..], delay, ticks[0].now))
  }

  // ---------------------------------------------------------------------------
  // The invariant, stated for one half against the other.
  // ---------------------------------------------------------------------------

  ghost predicate Timely(me: Half, watch: Watch, clock: Time) {
    && |watch.at| == |me.sent|
    && (forall k :: 0 <= k < |watch.at| ==> watch.at[k] <= clock)
    && (me.end.slot.Some? ==> watch.at != [] && watch.last == Some(watch.at[|watch.at| - 1]))
  }

  /** Whatever `peer` has processed, it answered or had sent its own in time. */
  ghost predicate Answered(watch: Watch, peer: Half, peers: Watch, delay: Time) {
    && |peer.used| <= |watch.at| && |peer.used| <= |peers.at|
    && forall m :: 0 <= m < |peer.used| ==> peers.at[m] <= watch.at[m] + delay
  }

  ghost predicate TimedInv(s: Suite, t: Timed, delay: Time, clock: Time) {
    && Inv(s, t.w) && t.w.Overwrites() == 0
    && Timely(t.w.a, t.a, clock) && Timely(t.w.b, t.b, clock)
    && Answered(t.a, t.w.b, t.b, delay) && Answered(t.b, t.w.a, t.a, delay)
  }

  /** A slot has been pending for at most twice the delay, so the gate is closed. */
  lemma PendingGateClosed(s: Suite, t: Timed, delay: Time, clock: Time, now: Time)
    requires 2 * delay <= REKEY_INTERVAL && TimedInv(s, t, delay, clock) && Prompt(t, now, delay)
    requires t.w.a.end.slot.Some?
    ensures !Open(t.a.last, now)
  {
    var m := |t.w.a.sent| - 1;
    assert m == |t.w.a.used| && t.a.last == Some(t.a.at[m]);
    if |t.w.b.used| <= m {
      assert now - t.a.at[m] <= delay;
    } else {
      assert t.b.at[m] <= t.a.at[m] + delay;
      assert now - t.b.at[m] <= delay;
    }
  }

  ghost predicate SameCounts(b: Half, b': Half) {
    |b'.used| == |b.used| && |b'.sent| == |b.sent| && b'.end.slot == b.end.slot && b'.initiated == b.initiated
  }

  ghost predicate Initiated(a: Half, a': Half) {
    |a'.used| == |a.used| && |a'.sent| == |a.sent| + 1 && a'.initiated == a.initiated + 1
  }

  /** The halves' clock work survives an initiation. */
  lemma SendInTime(a: Half, wa: Watch, b: Half, wb: Watch, a': Half, b': Half, delay: Time, clock: Time, now: Time)
    requires Timely(a, wa, clock) && Timely(b, wb, clock) && Answered(wa, b, wb, delay) && Answered(wb, a, wa, delay)
    requires clock <= now && (Initiated(a, a') || SameCounts(a, a')) && SameCounts(b, b')
    ensures var wa', wb' := Watched(a, a', wa, now), Watched(b, b', wb, now);
            Timely(a', wa', now) && Timely(b', wb', now) && Answered(wa', b', wb', delay) && Answered(wb', a', wa', delay)
  {
  }

  lemma InitiateEffect(s: Suite, w: World, eph: PrivateKey)
    requires w.a.end.slot.None? || w.a.end.key.None?
    ensures var w' := Next(s, w, Initiate(A, eph));
            && (Initiated(w.a, w'.a) || SameCounts(w.a, w'.a)) && SameCounts(w.b, w'.b)
            && w'.Overwrites() == w.Overwrites()
  {
  }

  lemma InitiateInTime(s: Suite, t: Timed, eph: PrivateKey, delay: Time, clock: Time, now: Time)
    requires 2 * delay <= REKEY_INTERVAL && TimedInv(s, t, delay, clock) && clock <= now
    requires Prompt(t, now, delay) && Gated(t, Tick(now, Initiate(A, eph)))
    ensures TimedInv(s, NextTimed(s, t, Tick(now, Initiate(A, eph))), delay, now)
  {
    if t.w.a.end.slot.Some? {
      PendingGateClosed(s, t, delay, clock, now);
    }
    var w' := Next(s, t.w, Initiate(A, eph));
    NextKeepsInv(s, t.w, Initiate(A, eph));
    InitiateEffect(s, t.w, eph);
    SendInTime(t.w.a, t.a, t.w.b, t.b, w'.a, w'.b, delay, clock, now);
  }

  /** What a delivery does to the counts of the receiver, with or without a rekey packet. */
  ghost predicate Received(a: Half, a': Half, processed: bool) {
    && a'.initiated == a.initiated
    && if processed then
         && |a'.used| == |a.used| + 1 == |a'.sent| && a'.end.slot.None?
         && (|a'.sent| == |a.sent| || |a'.sent| == |a.sent| + 1)
       else
         |a'.used| == |a.used| && |a'.sent| == |a.sent| && a'.end.slot == a.end.slot
  }

  lemma DeliverEffect(s: Suite, w: World, eph: PrivateKey) returns (processed: bool)
    requires Inv(s, w) && w.Overwrites() == 0
    ensures var w' := Next(s, w, Deliver(A, eph));
            && Received(w.a, w'.a, processed) && SameCounts(w.b, w'.b)
            && (processed ==> |w.a.used| < |w.b.sent|)
  {
    processed := w.b.out != [] && w.b.out[0].Rekey?;
    if processed {
      FirstInFlight(s, w);
    }
  }

  /** The halves' clock work survives a delivery. */
  lemma ReceiveInTime(
    a: Half, wa: Watch, b: Half, wb: Watch, a': Half, b': Half, processed: bool, delay: Time, clock: Time, now: Time)
    requires Timely(a, wa, clock) && Timely(b, wb, clock) && Answered(wa, b, wb, delay) && Answered(wb, a, wa, delay)
    requires Young(b, wb, a, now, delay) && clock <= now
    requires Received(a, a', processed) && SameCounts(b, b') && (processed ==> |a.used| < |b.sent|)
    ensures var wa', wb' := Watched(a, a', wa, now), Watched(b, b', wb, now);
            Timely(a', wa', now) && Timely(b', wb', now) && Answered(wa', b', wb', delay) && Answered(wb', a', wa', delay)
  {
    if processed {
      assert now - wb.at[|a.used|] <= delay;
    }
  }

  lemma DeliverInTime(s: Suite, t: Timed, eph: PrivateKey, delay: Time, clock: Time, now: Time)
    requires TimedInv(s, t, delay, clock) && clock <= now && Prompt(t, now, delay)
    ensures TimedInv(s, NextTimed(s, t, Tick(now, Deliver(A, eph))), delay, now)
  {
    var step := Deliver(A, eph);
    NextKeepsInv(s, t.w, step);
    DeliverKeepsOverwrites(s, t.w, step);
    var processed := DeliverEffect(s, t.w, eph);
    var w' := Next(s, t.w, step);
    ReceiveInTime(t.w.a, t.a, t.w.b, t.b, w'.a, w'.b, processed, delay, clock, now);
  }

  lemma NextTimedSwap(s: Suite, t: Timed, tick: Tick)
    ensures NextTimed(s, t.Swap(), Tick(tick.now, Flip(tick.step))) == NextTimed(s, t, tick).Swap()
  {
    NextSwap(s, t.w, tick.step);
  }

  lemma SwapKeepsInv(s: Suite, t: Timed, delay: Time, clock: Time)
    requires TimedInv(s, t, delay, clock)
    ensures TimedInv(s, t.Swap(), delay, clock)
  {
  }

  lemma SideAInTime(s: Suite, t: Timed, tick: Tick, delay: Time, clock: Time)
    requires 2 * delay <= REKEY_INTERVAL && TimedInv(s, t, delay, clock) && clock <= tick.now
    requires Gated(t, tick) && Prompt(t, tick.now, delay) && tick.step.side == A
    ensures TimedInv(s, NextTimed(s, t, tick), delay, tick.now)
  {
    match tick.step
    case Initiate(_, eph) => InitiateInTime(s, t, eph, delay, clock, tick.now);
    case Deliver(_, eph) => DeliverInTime(s, t, eph, delay, clock, tick.now);
  }

  lemma StepInTime(s: Suite, t: Timed, tick: Tick, delay: Time, clock: Time)
    requires 2 * delay <= REKEY_INTERVAL && TimedInv(s, t, delay, clock) && clock <= tick.now
    requires Gated(t, tick) && Prompt(t, tick.now, delay)
    ensures TimedInv(s, NextTimed(s, t, tick), delay, tick.now)
  {
    if tick.step.side == A {
      SideAInTime(s, t, tick, delay, clock);
    } else {
      var flipped := Tick(tick.now, Flip(tick.step));
      SwapKeepsInv(s, t, delay, clock);
      SideAInTime(s, t.Swap(), flipped, delay, clock);
      NextTimedSwap(s, t, tick);
      SwapKeepsInv(s, NextTimed(s, t.Swap(), flipped), delay, tick.now);
      assert NextTimed(s, t, tick).Swap().Swap() == NextTimed(s, t, tick);
    }
  }

  lemma {:induction false} RunInTime(s: Suite, t: Timed, ticks: seq<Tick>, delay: Time, clock: Time)
    requires 2 * delay <= REKEY_INTERVAL && TimedInv(s, t, delay, clock) && Proper(s, t, ticks, delay, clock)
    ensures RunTimed(s, t, ticks).w.Overwrites() == 0
    decreases |ticks|
  {
    if ticks != [] {
      StepInTime(s, t, ticks[0], delay, clock);
      RunInTime(s, NextTimed(s, t, ticks[0]), ticks[1..], delay, ticks[0].now);
    }
  }

  lemma StartInTime(s: Suite, idA: PrivateKey, idB: PrivateKey, lastA: Option<Time>, lastB: Option<Time>, delay: Time, clock: Time)
    ensures TimedInv(s, StartTimed(s, idA, idB, lastA, lastB), delay, clock)
  {
    StartInv(s, idA, idB);
  }

  /** The steps of a timed run. */
  function Untimed(ticks: seq<Tick>): seq<Step> {
    seq(|ticks|, k requires 0 <= k < |ticks| => ticks[k].step)
  }

  lemma {:induction false} RunUntimed(s: Suite, t: Timed, ticks: seq<Tick>)
    ensures RunTimed(s, t, ticks).w == Run(s, t.w, Untimed(ticks))
    decreases |ticks|
  {
    if ticks != [] {
      assert Untimed(ticks)[1..] == Untimed(ticks[1..]);
      RunUntimed(s, NextTimed(s, t, ticks[0]), ticks[1..]);
    }
  }

  /**
    Five minutes are enough.  When every rekey packet arrives within half of the gate's ten
    minutes, no run overwrites a slot; so the ends agree whenever they are level, and
    deliveries alone can settle the exchange.
   */
  lemma PromptRunsAgree(
    s: Suite, idA: PrivateKey, idB: PrivateKey, lastA: Option<Time>, lastB: Option<Time>,
    ticks: seq<Tick>, delay: Time, clock: Time)
    requires s.Symmetric() && 2 * delay <= REKEY_INTERVAL
    requires Proper(s, StartTimed(s, idA, idB, lastA, lastB), ticks, delay, clock)
    ensures var w := RunTimed(s, StartTimed(s, idA, idB, lastA, lastB), ticks).w;
            && w.Overwrites() == 0 && Agreeing(w)
            && exists steps: seq<Step> :: AllDeliver(steps) && Run(s, w, steps).Quiet()
  {
    var t := StartTimed(s, idA, idB, lastA, lastB);
    var w := RunTimed(s, t, ticks).w;
    StartInTime(s, idA, idB, lastA, lastB, delay, clock);
    RunInTime(s, t, ticks, delay, clock);
    RunUntimed(s, t, ticks);
    assert Reachable(s, w);
    SettlesIffNoOverwrite(s, w);
    Agreement(s, w, []);
  }

  /** No proper run overwrites a slot. */
  ghost predicate NeverOverwrites(s: Suite, idA: PrivateKey, idB: PrivateKey, delay: Time) {
    forall lastA: Option<Time>, lastB: Option<Time>, ticks: seq<Tick>, clock: Time ::
      Proper(s, StartTimed(s, idA, idB, lastA, lastB), ticks, delay, clock) ==>
        RunTimed(s, StartTimed(s, idA, idB, lastA, lastB), ticks).w.Overwrites() == 0
  }

  /** The answer to an initiation is still on its way when the gate opens again. */
  function LateAnswer(): seq<Tick> {
    [Tick(0, Deliver(A, 0)), Tick(0, Deliver(B, 0)), Tick(0, Initiate(A, 1)), Tick(301, Deliver(B, 2)), Tick(601, Initiate(A, 3))]
  }

  lemma ProperCons(s: Suite, t: Timed, tick: Tick, rest: seq<Tick>, delay: Time, clock: Time)
    requires clock <= tick.now && Gated(t, tick) && Prompt(t, tick.now, delay)
    requires Proper(s, NextTimed(s, t, tick), rest, delay, tick.now)
    ensures Proper(s, t, [tick] + rest, delay, clock)
    ensures RunTimed(s, t, [tick] + rest) == RunTimed(s, NextTimed(s, t, tick), rest)
  {
    assert ([tick] + rest)[1..] == rest;
  }

  /** An initiation of end A at time 0 is on its way, and nothing else. */
  ghost predicate JustInitiated(s: Suite, t: Timed) {
    && t.a == Watch(Some(0), [0]) && t.b == Watch(None, [])
    && t.w.a.end.key.Some? && t.w.b.end.key.Some? && t.w.a.end.slot == Some(1) && t.w.b.end.slot == None
    && t.w.a.sent == [1] && t.w.b.sent == [] && t.w.a.used == [] && t.w.b.used == [] && t.w.Overwrites() == 0
    && t.w.a.out == [Rekey(s.pub(1))] && t.w.b.out == []
  }

  /** It has been answered 301 seconds later. */
  ghost predicate JustAnswered(t: Timed) {
    && t.a == Watch(Some(0), [0]) && t.b == Watch(Some(301), [301])
    && t.w.a.end.key.Some? && t.w.a.end.slot == Some(1) && t.w.a.sent == [1]
    && t.w.a.used == [] && t.w.b.used == [2] && t.w.Overwrites() == 0
  }

  function ThreeTicks(s: Suite, t: Timed): Timed {
    NextTimed(s, NextTimed(s, NextTimed(s, t, Tick(0, Deliver(A, 0))), Tick(0, Deliver(B, 0))), Tick(0, Initiate(A, 1)))
  }

  lemma FirstInitiation(s: Suite, idA: PrivateKey, idB: PrivateKey)
    ensures JustInitiated(s, ThreeTicks(s, StartTimed(s, idA, idB, None, None)))
  {
    var t0 := StartTimed(s, idA, idB, None, None);
    var w1 := Next(s, t0.w, Deliver(A, 0));
    var w2 := Next(s, w1, Deliver(B, 0));
    var w3 := Next(s, w2, Initiate(A, 1));
    assert w2.a.out == [] && w2.b.out == [];
    assert w3.a.sent == [1] && w3.a.initiated == 1;
  }

  lemma FirstAnswer(s: Suite, t: Timed)
    requires JustInitiated(s, t)
    ensures JustAnswered(NextTimed(s, t, Tick(301, Deliver(B, 2))))
  {
  }

  lemma SecondInitiation(s: Suite, t: Timed)
    requires JustAnswered(t)
    ensures NextTimed(s, t, Tick(601, Initiate(A, 3))).w.Overwrites() == 1
  {
  }

  lemma LateEnd(s: Suite, t: Timed, delay: Time)
    requires delay >= 301 && JustInitiated(s, t)
    ensures var ticks := [Tick(301, Deliver(B, 2))] + ([Tick(601, Initiate(A, 3))] + []);
            Proper(s, t, ticks, delay, 0) && RunTimed(s, t, ticks).w.Overwrites() == 1
  {
    var k4, k5 := Tick(301, Deliver(B, 2)), Tick(601, Initiate(A, 3));
    FirstAnswer(s, t);
    SecondInitiation(s, NextTimed(s, t, k4));
    ProperCons(s, NextTimed(s, t, k4), k5, [], delay, 301);
    ProperCons(s, t, k4, [k5] + [], delay, 0);
  }

  lemma HelloTicks(s: Suite, idA: PrivateKey, idB: PrivateKey)
    ensures var t1 := NextTimed(s, StartTimed(s, idA, idB, None, None), Tick(0, Deliver(A, 0)));
            var t2 := NextTimed(s, t1, Tick(0, Deliver(B, 0)));
            t1.a == t1.b == t2.a == t2.b == Watch(None, [])
  {
  }

  /** One-way delays of 301 seconds make the gate open too early. */
  lemma LateAnswerOverwrites(s: Suite, idA: PrivateKey, idB: PrivateKey, delay: Time)
    requires delay >= 301
    ensures Proper(s, StartTimed(s, idA, idB, None, None), LateAnswer(), delay, 0)
    ensures RunTimed(s, StartTimed(s, idA, idB, None, None), LateAnswer()).w.Overwrites() == 1
  {
    var t0 := StartTimed(s, idA, idB, None, None);
    var k1, k2, k3 := Tick(0, Deliver(A, 0)), Tick(0, Deliver(B, 0)), Tick(0, Initiate(A, 1));
    var rest := [Tick(301, Deliver(B, 2))] + ([Tick(601, Initiate(A, 3))] + []);
    FirstInitiation(s, idA, idB);
    LateEnd(s, ThreeTicks(s, t0), delay);
    var t1 := NextTimed(s, t0, k1);
    var t2 := NextTimed(s, t1, k2);
    HelloTicks(s, idA, idB);
    ProperCons(s, t2, k3, rest, delay, 0);
    ProperCons(s, t1, k2, [k3] + rest, delay, 0);
    ProperCons(s, t0, k1, [k2] + ([k3] + rest), delay, 0);
    assert LateAnswer() == [k1] + ([k2] + ([k3] + rest));
  }

  /**
    The gate, exactly: it protects the slots in every run in which packets arrive within
    `delay` if and only if a packet and its answer fit into it.
   */
  lemma GateProtectsIff(s: Suite, idA: PrivateKey, idB: PrivateKey, delay: Time)
    ensures NeverOverwrites(s, idA, idB, delay) <==> 2 * delay <= REKEY_INTERVAL
  {
    if 2 * delay <= REKEY_INTERVAL {
      forall lastA: Option<Time>, lastB: Option<Time>, ticks: seq<Tick>, clock: Time |
        Proper(s, StartTimed(s, idA, idB, lastA, lastB), ticks, delay, clock)
        ensures RunTimed(s, StartTimed(s, idA, idB, lastA, lastB), ticks).w.Overwrites() == 0
      {
        StartInTime(s, idA, idB, lastA, lastB, delay, clock);
        RunInTime(s, StartTimed(s, idA, idB, lastA, lastB), ticks, delay, clock);
      }
    } else {
      LateAnswerOverwrites(s, idA, idB, delay);
    }
  }
}
