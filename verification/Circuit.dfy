/**
  The circuit breaker that skips addresses after repeated failed dials, and the
  dialling step that consults it.  A dial and the bookkeeping around it are one step.
 */
module Circuit {
  import opened Basics

  /** Nanoseconds on a clock that never goes back. */
  type Time = int

  const MINUTE: Time := 60_000_000_000

  /** What the breaker knows about one address. */
  datatype Status = Status(failures: nat, since: Option<Time>)

  datatype Config = Config(threshold: nat, cooldown: Time) {
    predicate Valid() { 0 < threshold && 0 < cooldown }

    /** An address is blocked exactly while its failure count has reached the threshold. */
    predicate Sound(s: Status) { s.failures <= threshold && (s.since.Some? <==> s.failures >= threshold) }
  }

  function Cooled(c: Config, s: Status, now: Time): Status {
    if s.since.Some? && now - s.since.value > c.cooldown then Status(0, None) else s
  }

  predicate Skips(c: Config, s: Status, now: Time) {
    s.since.Some? && now - s.since.value <= c.cooldown
  }

  function Failed(c: Config, s: Status, now: Time): Status {
    Status(s.failures + 1, if s.failures + 1 >= c.threshold then Some(now) else s.since)
  }

  /** ConnectTo on one address: skipped, or dialled with success or failure. */
  function Attempted(c: Config, s: Status, now: Time, fails: bool): Status {
    if Skips(c, s, now) then s
    else if fails then Failed(c, Cooled(c, s, now), now)
    else Cooled(c, s, now)
  }

  class Breaker {
    var failures: map<string, nat>
    var blockedAt: map<string, Time>
    const config: Config

    function At(addr: string): Status
      reads this
    {
      Status(if addr in failures then failures[addr] else 0, Lookup(blockedAt, addr))
    }

    constructor (threshold: int, cooldown: Time)
      ensures config == Config(if threshold <= 0 then 5 else threshold, if cooldown <= 0 then 60_000_000_000 else cooldown)
      ensures config.Valid() && forall a :: At(a) == Status(0, None)
    {
      failures, blockedAt := map[], map[];
      config := Config(if threshold <= 0 then 5 else threshold, if cooldown <= 0 then MINUTE else cooldown);
    }

    method Skip(addr: string, now: Time) returns (skip: bool)
      modifies this
      ensures skip <==> Skips(config, old(At(addr)), now)
      ensures At(addr) == Cooled(config, old(At(addr)), now)
      ensures forall a :: a != addr ==> At(a) == old(At(a))
    {
      if addr !in blockedAt {
        return false;
      }
      if now - blockedAt[addr] > config.cooldown {
        blockedAt := blockedAt - {addr};
        failures := failures - {addr};
        return false;
      }
      return true;
    }

    method RecordSuccess(addr: string)
      modifies this
      ensures At(addr) == Status(0, None)
      ensures forall a :: a != addr ==> At(a) == old(At(a))
    {
      failures := failures - {addr};
      blockedAt := blockedAt - {addr};
    }

    method RecordFailure(addr: string, now: Time) returns (tripped: bool)
      modifies this
      ensures At(addr) == Failed(config, old(At(addr)), now)
      ensures tripped <==> At(addr).failures >= config.threshold
      ensures forall a :: a != addr ==> At(a) == old(At(a))
    {
      failures := failures[addr := (if addr in failures then failures[addr] else 0) + 1];
      tripped := failures[addr] >= config.threshold;
      if tripped {
        blockedAt := blockedAt[addr := now];
      }
    }

    /** ConnectTo; `connected` says whether a connection is open, `fails` is the dial's outcome. */
    method ConnectTo(addr: string, connected: bool, now: Time, fails: bool) returns (dialled: bool)
      modifies this
      ensures dialled <==> !connected && !Skips(config, old(At(addr)), now)
      ensures At(addr) == if connected then old(At(addr)) else Attempted(config, old(At(addr)), now, fails)
      ensures forall a :: a != addr ==> At(a) == old(At(a))
    {
      if connected {
        return false;
      }
      var skip := Skip(addr, now);
      if skip {
        return false;
      }
      if fails {
        var _ := RecordFailure(addr, now);
      }
      return true;
    }
  }

  // ---------------------------------------------------------------------------
  // Runs.
  // ---------------------------------------------------------------------------

  /** An attempt to connect, or a completed handshake. */
  datatype Event = Attempt(addr: string, now: Time, fails: bool) | Handshake(addr: string, now: Time)

  function Next(c: Config, s: Status, e: Event): Status {
    match e
    case Attempt(_, now, fails) => Attempted(c, s, now, fails)
    case Handshake(_, _) => Status(0, None)
  }

  /** The status of `addr` after the first k events of a run over any addresses. */
  function After(c: Config, addr: string, events: seq<Event>, k: nat): Status
    requires k <= |events|
  {
    if k == 0 then Status(0, None)
    else
      var s := After(c, addr, events, k - 1);
      if events[k - 1].addr == addr then Next(c, s, events[k - 1]) else s
  }

  predicate Ordered(events: seq<Event>) {
    forall i, j :: 0 <= i < j < |events| ==> events[i].now <= events[j].now
  }

  /** Event k dialled `addr` in vain. */
  predicate FailedDial(c: Config, addr: string, events: seq<Event>, k: nat)
    requires k < |events|
  {
    var e := events[k];
    e.addr == addr && e.Attempt? && e.fails && !Skips(c, After(c, addr, events, k), e.now)
  }

  function FailedDials(c: Config, addr: string, events: seq<Event>, i: nat, j: nat): nat
    requires i <= j <= |events|
    decreases j
  {
    if i == j then 0
    else FailedDials(c, addr, events, i, j - 1) + (if FailedDial(c, addr, events, j - 1) then 1 else 0)
  }

  /** Throughout every run, an address is blocked exactly when its failures reached the threshold. */
  lemma {:induction false} AlwaysSound(c: Config, addr: string, events: seq<Event>, k: nat)
    requires c.Valid() && Ordered(events) && k <= |events|
    ensures c.Sound(After(c, addr, events, k))
    ensures After(c, addr, events, k).since.Some? && k < |events| ==> After(c, addr, events, k).since.value <= events[k].now
  {
    if k > 0 {
      AlwaysSound(c, addr, events, k - 1);
    }
  }

  /** Handshakes of the address among the events i..j-1. */
  function Handshakes(addr: string, events: seq<Event>, i: nat, j: nat): nat
    requires i <= j <= |events|
    decreases j
  {
    if i == j then 0
    else Handshakes(addr, events, i, j - 1) + (if events[j - 1].Handshake? && events[j - 1].addr == addr then 1 else 0)
  }

  /** n thresholds, added up. */
  function Times(n: nat, threshold: nat): nat { if n == 0 then 0 else Times(n - 1, threshold) + threshold }

  lemma {:induction false} TimesMeaning(n: nat, threshold: nat)
    ensures Times(n, threshold) == n * threshold
  {
    if n > 0 {
      TimesMeaning(n - 1, threshold);
    }
  }

  /**
    Failed dials of the window are on the failure count, except for at most one threshold
    wiped out by each handshake, and a block they caused is recent.
   */
  ghost predicate Recorded(c: Config, s: Status, dials: nat, handshakes: nat, from: Time) {
    && dials <= Times(handshakes, c.threshold) + s.failures
    && (0 < dials && s.since.Some? ==> s.since.value >= from)
  }

  lemma RecordedStep(c: Config, s: Status, e: Event, dials: nat, handshakes: nat, from: Time)
    requires c.Valid() && c.Sound(s) && Recorded(c, s, dials, handshakes, from)
    requires from <= e.now && e.now - from <= c.cooldown
    ensures e.Handshake? ==> Recorded(c, Next(c, s, e), dials, handshakes + 1, from)
    ensures e.Attempt? ==>
              var failed := e.fails && !Skips(c, s, e.now);
              Recorded(c, Next(c, s, e), dials + (if failed then 1 else 0), handshakes, from)
  {
    assert Times(handshakes + 1, c.threshold) == Times(handshakes, c.threshold) + c.threshold;
  }

  lemma {:induction false} WindowInv(c: Config, addr: string, events: seq<Event>, i: nat, j: nat)
    requires c.Valid() && Ordered(events) && i < |events| && i <= j <= |events|
    requires j > i ==> events[j - 1].now - events[i].now <= c.cooldown
    ensures Recorded(c, After(c, addr, events, j), FailedDials(c, addr, events, i, j),
                     Handshakes(addr, events, i, j), events[i].now)
    decreases j
  {
    if j > i {
      WindowInv(c, addr, events, i, j - 1);
      AlwaysSound(c, addr, events, j - 1);
      if events[j - 1].addr == addr {
        RecordedStep(c, After(c, addr, events, j - 1), events[j - 1], FailedDials(c, addr, events, i, j - 1),
                     Handshakes(addr, events, i, j - 1), events[i].now);
      }
    }
  }

  /**
    Failure bound.  Any stretch of a run no longer than the cooldown in which the address
    completed h handshakes contains at most (h + 1) * threshold failed dials of it,
    whatever the state it started in.
   */
  lemma FailureBound(c: Config, addr: string, events: seq<Event>, i: nat, j: nat)
    requires c.Valid() && Ordered(events) && i < j <= |events|
    requires events[j - 1].now - events[i].now <= c.cooldown
    ensures FailedDials(c, addr, events, i, j) <= (Handshakes(addr, events, i, j) + 1) * c.threshold
  {
    WindowInv(c, addr, events, i, j);
    AlwaysSound(c, addr, events, j);
    TimesMeaning(Handshakes(addr, events, i, j) + 1, c.threshold);
  }

  // ---------------------------------------------------------------------------
  // Exactly when an attempt is skipped, told from what was dialled.
  // ---------------------------------------------------------------------------

  /** Event k was an attempt on `addr` that went through to a dial. */
  predicate Dialled(c: Config, addr: string, events: seq<Event>, k: nat)
    requires k < |events|
  {
    events[k].Attempt? && events[k].addr == addr && !Skips(c, After(c, addr, events, k), events[k].now)
  }

  /** Failed dials in a row, and when the last of them was. */
  datatype Streak = Streak(count: nat, last: Option<Time>)

  /** A dial after a full streak means that its block had expired: the streak starts over. */
  function Extended(c: Config, s: Streak, fails: bool, now: Time): Streak {
    var base := if s.count >= c.threshold then Streak(0, None) else s;
    if fails then Streak(base.count + 1, Some(now)) else base
  }

  /** The streak of an address before event k: handshakes end it, skipped attempts leave it alone. */
  function StreakAt(c: Config, addr: string, events: seq<Event>, k: nat): Streak
    requires k <= |events|
  {
    if k == 0 then Streak(0, None)
    else
      var s, e := StreakAt(c, addr, events, k - 1), events[k - 1];
      if e.addr != addr then s
      else if e.Handshake? then Streak(0, None)
      else if Dialled(c, addr, events, k - 1) then Extended(c, s, e.fails, e.now)
      else s
  }

  ghost predicate Reflects(c: Config, s: Status, streak: Streak) {
    && s.failures == streak.count <= c.threshold
    && s.since == (if streak.count >= c.threshold then streak.last else None)
    && (streak.count > 0 ==> streak.last.Some?)
  }

  lemma {:induction false} StatusReflectsStreak(c: Config, addr: string, events: seq<Event>, k: nat)
    requires c.Valid() && k <= |events|
    ensures Reflects(c, After(c, addr, events, k), StreakAt(c, addr, events, k))
  {
    if k > 0 {
      StatusReflectsStreak(c, addr, events, k - 1);
    }
  }

  /**
    Skipping, exactly.  An attempt is skipped if and only if `threshold` dials in a row have
    failed since the last handshake or expired block, the last of them no more than the
    cooldown ago.
   */
  lemma SkippedIff(c: Config, addr: string, events: seq<Event>, k: nat)
    requires c.Valid() && k < |events| && events[k].Attempt? && events[k].addr == addr
    ensures var streak := StreakAt(c, addr, events, k);
            && (streak.count > 0 ==> streak.last.Some?)
            && (!Dialled(c, addr, events, k) <==>
                  streak.count >= c.threshold && events[k].now - streak.last.value <= c.cooldown)
  {
    StatusReflectsStreak(c, addr, events, k);
  }

  /** The time of a streak is that of a failed dial. */
  lemma {:induction false} StreakHasDial(c: Config, addr: string, events: seq<Event>, k: nat)
    requires k <= |events| && StreakAt(c, addr, events, k).last.Some?
    ensures exists j :: 0 <= j < k && FailedDial(c, addr, events, j)
                        && Some(events[j].now) == StreakAt(c, addr, events, k).last
  {
    var e := events[k - 1];
    if e.addr == addr && e.Attempt? && e.fails && Dialled(c, addr, events, k - 1) {
      assert FailedDial(c, addr, events, k - 1);
    } else {
      StreakHasDial(c, addr, events, k - 1);
    }
  }

  /**
    The breaker recovers: an attempt later than the cooldown after every failed dial of the
    address is dialled.  If the address was blocked, a failure then counts as the first.
   */
  lemma RecoversAfterCooldown(c: Config, addr: string, events: seq<Event>, k: nat)
    requires c.Valid() && k < |events| && events[k].Attempt? && events[k].addr == addr
    requires forall j :: 0 <= j < k && FailedDial(c, addr, events, j) ==> events[k].now - events[j].now > c.cooldown
    ensures Dialled(c, addr, events, k)
    ensures StreakAt(c, addr, events, k).count >= c.threshold && events[k].fails ==>
              After(c, addr, events, k + 1).failures == 1
  {
    SkippedIff(c, addr, events, k);
    StatusReflectsStreak(c, addr, events, k + 1);
    if StreakAt(c, addr, events, k).count >= c.threshold {
      StreakHasDial(c, addr, events, k);
    }
  }

  // ---------------------------------------------------------------------------
  // The bound is reached.
  // ---------------------------------------------------------------------------

  /** n failed attempts at one moment. */
  function Failures(n: nat): seq<Event> {
    if n == 0 then [] else Failures(n - 1) + [Attempt("a", 0, true)]
  }

  /** A dial that works and, before its handshake completes, a full run of failures. */
  function Round(c: Config): seq<Event> { [Attempt("a", 0, false)] + Failures(c.threshold) }

  /** h + 1 rounds with the handshake of each but the last behind it, all at one moment. */
  function Rounds(c: Config, h: nat): seq<Event> {
    if h == 0 then Round(c) else Rounds(c, h - 1) + [Handshake("a", 0)] + Round(c)
  }

  /** What has happened up to event k does not depend on later events. */
  lemma {:induction false} PastIsFixed(c: Config, events: seq<Event>, more: seq<Event>, k: nat)
    requires k <= |events|
    ensures After(c, "a", events + more, k) == After(c, "a", events, k)
    ensures FailedDials(c, "a", events + more, 0, k) == FailedDials(c, "a", events, 0, k)
    ensures Handshakes("a", events + more, 0, k) == Handshakes("a", events, 0, k)
  {
    if k > 0 {
      PastIsFixed(c, events, more, k - 1);
    }
  }

  /** Status and counts of a whole run. */
  ghost predicate Ends(c: Config, events: seq<Event>, s: Status, dials: nat, handshakes: nat) {
    && After(c, "a", events, |events|) == s
    && FailedDials(c, "a", events, 0, |events|) == dials
    && Handshakes("a", events, 0, |events|) == handshakes
  }

  lemma OneMore(c: Config, events: seq<Event>, e: Event, s: Status, dials: nat, handshakes: nat)
    requires Ends(c, events, s, dials, handshakes) && e.addr == "a"
    ensures e.Handshake? ==> Ends(c, events + [e], Status(0, None), dials, handshakes + 1)
    ensures e.Attempt? && !e.fails && s.since.None? ==> Ends(c, events + [e], s, dials, handshakes)
    ensures e.Attempt? && e.fails && !Skips(c, s, e.now) ==>
              Ends(c, events + [e], Attempted(c, s, e.now, true), dials + 1, handshakes)
  {
    PastIsFixed(c, events, [e], |events|);
    assert (events + [e])[|events|] == e;
  }

  lemma {:induction false} FailMany(c: Config, events: seq<Event>, n: nat, dials: nat, handshakes: nat)
    requires c.Valid() && n <= c.threshold && Ends(c, events, Status(0, None), dials, handshakes)
    ensures Ends(c, events + Failures(n), Status(n, if n < c.threshold then None else Some(0)), dials + n, handshakes)
  {
    if n == 0 {
      assert events + Failures(0) == events;
    } else {
      FailMany(c, events, n - 1, dials, handshakes);
      OneMore(c, events + Failures(n - 1), Attempt("a", 0, true), Status(n - 1, None), dials + n - 1, handshakes);
      assert events + Failures(n) == events + Failures(n - 1) + [Attempt("a", 0, true)];
    }
  }

  lemma RoundRun(c: Config, events: seq<Event>, dials: nat, handshakes: nat)
    requires c.Valid() && Ends(c, events, Status(0, None), dials, handshakes)
    ensures Ends(c, events + Round(c), Status(c.threshold, Some(0)), dials + c.threshold, handshakes)
  {
    OneMore(c, events, Attempt("a", 0, false), Status(0, None), dials, handshakes);
    FailMany(c, events + [Attempt("a", 0, false)], c.threshold, dials, handshakes);
    assert events + Round(c) == events + [Attempt("a", 0, false)] + Failures(c.threshold);
  }

  lemma {:induction false} RoundsRun(c: Config, h: nat)
    requires c.Valid()
    ensures Ends(c, Rounds(c, h), Status(c.threshold, Some(0)), Times(h + 1, c.threshold), h)
  {
    if h == 0 {
      RoundRun(c, [], 0, 0);
      assert [] + Round(c) == Round(c);
      assert Times(1, c.threshold) == Times(0, c.threshold) + c.threshold;
    } else {
      RoundsRun(c, h - 1);
      var dials := Times(h, c.threshold);
      OneMore(c, Rounds(c, h - 1), Handshake("a", 0), Status(c.threshold, Some(0)), dials, h - 1);
      RoundRun(c, Rounds(c, h - 1) + [Handshake("a", 0)], dials, h);
      assert Times(h + 1, c.threshold) == dials + c.threshold;
    }
  }

  lemma {:induction false} RoundsAtOnce(c: Config, h: nat)
    ensures forall k :: 0 <= k < |Rounds(c, h)| ==> Rounds(c, h)[k].now == 0
  {
    FailuresAtOnce(c.threshold);
    if h > 0 {
      RoundsAtOnce(c, h - 1);
    }
  }

  lemma {:induction false} FailuresAtOnce(n: nat)
    ensures forall k :: 0 <= k < |Failures(n)| ==> Failures(n)[k].now == 0
  {
    if n > 0 {
      FailuresAtOnce(n - 1);
    }
  }

  /**
    The bound cannot be lowered: for every h a run in which each handshake follows a dial
    that worked reaches it in no time at all.
   */
  lemma BoundIsReached(c: Config, h: nat)
    requires c.Valid()
    ensures var events := Rounds(c, h);
            && Ordered(events) && (forall k :: 0 <= k < |events| ==> events[k].now == 0)
            && Handshakes("a", events, 0, |events|) == h
            && FailedDials(c, "a", events, 0, |events|) == (h + 1) * c.threshold
  {
    RoundsRun(c, h);
    RoundsAtOnce(c, h);
    TimesMeaning(h + 1, c.threshold);
  }
}
