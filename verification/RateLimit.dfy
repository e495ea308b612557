/**
  Token buckets, the strike guard and the connection guard.  Tokens and time are
  reals (seconds); the clock never goes back.  Each limiter keeps one state per key,
  so its runs are studied key by key.
 */
module RateLimit {
  import opened Basics

  const MESSAGE_RATE_PER_MINUTE: nat := 100
  const CONNECTION_RATE_PER_MINUTE: nat := 10
  const MAX_STRIKES: nat := 3

  // ---------------------------------------------------------------------------
  // The run of one key.
  // ---------------------------------------------------------------------------

  /** The next state of one key and whether the event may proceed. */
  datatype Outcome<S> = Outcome(state: S, ok: bool)

  type Stepper<!S> = (Option<S>, real) -> Outcome<S>

  function After<S>(step: Stepper<S>, s: Option<S>, times: seq<real>): Option<S> {
    if times == [] then s
    else Some(step(After(step, s, times[..|times| - 1]), times[|times| - 1]).state)
  }

  predicate OkAt<S>(step: Stepper<S>, s: Option<S>, times: seq<real>, k: nat)
    requires k < |times|
  {
    step(After(step, s, times[..k]), times[k]).ok
  }

  /** How many of the events i..j-1 were allowed. */
  function Allowed<S>(step: Stepper<S>, s: Option<S>, times: seq<real>, i: nat, j: nat): nat
    requires i <= j <= |times|
    decreases j
  {
    if i == j then 0 else Allowed(step, s, times, i, j - 1) + Unit(OkAt(step, s, times, j - 1))
  }

  function Unit(ok: bool): nat { if ok then 1 else 0 }

  lemma AfterStep<S>(step: Stepper<S>, s: Option<S>, times: seq<real>, j: nat)
    requires 0 < j <= |times|
    ensures After(step, s, times[..j]) == Some(step(After(step, s, times[..j - 1]), times[j - 1]).state)
    ensures OkAt(step, s, times, j - 1) == step(After(step, s, times[..j - 1]), times[j - 1]).ok
  {
    assert times[..j][..j - 1] == times[..j - 1];
  }

  predicate Ordered(times: seq<real>) {
    forall i, j :: 0 <= i < j < |times| ==> times[i] <= times[j]
  }

  // ---------------------------------------------------------------------------
  // Runs over many keys.
  // ---------------------------------------------------------------------------

  /** A call of a limiter: an event of a key, or the key is forgotten (Reset, Unblock). */
  datatype Event = Ask(key: string, now: real) | Forget(key: string)

  function Stepped<S>(step: Stepper<S>, states: map<string, S>, e: Event): map<string, S> {
    match e
    case Ask(key, now) => states[key := step(Lookup(states, key), now).state]
    case Forget(key) => states - {key}
  }

  /** The states of all keys after n events. */
  function StatesAt<S>(step: Stepper<S>, states: map<string, S>, events: seq<Event>, n: nat): map<string, S>
    requires n <= |events|
  {
    if n == 0 then states else Stepped(step, StatesAt(step, states, events, n - 1), events[n - 1])
  }

  /** The state of one key after n events. */
  function StateOf<S>(step: Stepper<S>, states: map<string, S>, events: seq<Event>, key: string, n: nat): Option<S>
    requires n <= |events|
  {
    Lookup(StatesAt(step, states, events, n), key)
  }

  /** Event k was allowed. */
  predicate Passes<S>(step: Stepper<S>, states: map<string, S>, events: seq<Event>, k: nat)
    requires k < |events|
  {
    events[k].Ask? && step(StateOf(step, states, events, events[k].key, k), events[k].now).ok
  }

  /** When `key` asked, among the first n events and since it was last forgotten. */
  function TimesOf(events: seq<Event>, key: string, n: nat): seq<real>
    requires n <= |events|
  {
    if n == 0 then []
    else if events[n - 1].key != key then TimesOf(events, key, n - 1)
    else if events[n - 1].Forget? then []
    else TimesOf(events, key, n - 1) + [events[n - 1].now]
  }

  /** Where the current run of `key` started. */
  function StartOf<S>(s: Option<S>, events: seq<Event>, key: string, n: nat): Option<S>
    requires n <= |events|
  {
    if n == 0 then s
    else if events[n - 1] == Forget(key) then None
    else StartOf(s, events, key, n - 1)
  }

  /** The events of other keys do not matter: a key's state is that of its own run since it was forgotten. */
  lemma {:induction false} KeysAreIndependent<S>(
    step: Stepper<S>, states: map<string, S>, events: seq<Event>, key: string, n: nat)
    requires n <= |events|
    ensures StateOf(step, states, events, key, n) ==
            After(step, StartOf(Lookup(states, key), events, key, n), TimesOf(events, key, n))
  {
    if n > 0 {
      KeysAreIndependent(step, states, events, key, n - 1);
      var times := TimesOf(events, key, n);
      if events[n - 1].key == key && events[n - 1].Ask? {
        assert times[..|times| - 1] == TimesOf(events, key, n - 1);
      }
    }
  }

  lemma LastOk<S>(step: Stepper<S>, s: Option<S>, times: seq<real>, now: real)
    ensures OkAt(step, s, times + [now], |times|) == step(After(step, s, times), now).ok
  {
    assert (times + [now])[..|times|] == times;
  }

  /** Nor do they matter for what is allowed. */
  lemma OutcomesAreIndependent<S>(step: Stepper<S>, states: map<string, S>, events: seq<Event>, k: nat)
    requires k < |events| && events[k].Ask?
    ensures var key := events[k].key;
            var times := TimesOf(events, key, k + 1);
            && times != []
            && (Passes(step, states, events, k) <==>
                  OkAt(step, StartOf(Lookup(states, key), events, key, k), times, |times| - 1))
  {
    var key, now := events[k].key, events[k].now;
    var times, start := TimesOf(events, key, k), StartOf(Lookup(states, key), events, key, k);
    KeysAreIndependent(step, states, events, key, k);
    LastOk(step, start, times, now);
    assert TimesOf(events, key, k + 1) == times + [now];
  }

  // ---------------------------------------------------------------------------
  // The token bucket.
  // ---------------------------------------------------------------------------

  datatype Bucket = Bucket(tokens: real, last: real)

  datatype Policy = Policy(rate: real, burst: real) {
    ghost predicate Valid() { rate > 0.0 && burst > 0.0 }

    ghost predicate Holds(b: Bucket) { 0.0 <= b.tokens <= burst }
  }

  /** What a bucket earns from moment a to moment b. */
  function Earned(p: Policy, a: real, b: real): real { (b - a) * p.rate }

  function Capped(p: Policy, tokens: real): real { if tokens > p.burst then p.burst else tokens }

  function Refilled(p: Policy, b: Bucket, now: real): real {
    Capped(p, b.tokens + Earned(p, b.last, now))
  }

  function Take(p: Policy, state: Option<Bucket>, now: real): Outcome<Bucket> {
    var b := if state.None? then Bucket(p.burst, now) else state.value;
    var t := Refilled(p, b, now);
    if t < 1.0 then Outcome(Bucket(t, now), false) else Outcome(Bucket(t - 1.0, now), true)
  }

  function Taker(p: Policy): Stepper<Bucket> { (s, now) => Take(p, s, now) }

  /** The tokens a refill has produced by a given moment. */
  type Credit = real -> real

  function CreditOf(p: Policy): Credit { t => t * p.rate }

  lemma Distributes(x: real, y: real, r: real)
    ensures (x - y) * r == x * r - y * r
  {
  }

  lemma ProductNonNegative(x: real, r: real)
    requires x >= 0.0 && r >= 0.0
    ensures x * r >= 0.0
  {
  }

  lemma EarnedIsCredit(p: Policy, a: real, b: real)
    ensures Earned(p, a, b) == CreditOf(p)(b) - CreditOf(p)(a)
  {
    Distributes(b, a, p.rate);
  }

  ghost predicate Growing(credit: Credit) {
    forall a: real, b: real :: a <= b ==> credit(a) <= credit(b)
  }

  lemma CreditGrows(p: Policy)
    requires p.Valid()
    ensures Growing(CreditOf(p))
  {
    forall a: real, b: real | a <= b ensures CreditOf(p)(a) <= CreditOf(p)(b) {
      EarnedGrows(p, a, b);
      EarnedIsCredit(p, a, b);
    }
  }

  lemma RefillBounds(p: Policy, b: Bucket, now: real)
    requires p.Valid() && p.Holds(b) && b.last <= now
    ensures b.tokens <= Refilled(p, b, now) <= p.burst
    ensures Refilled(p, b, now) <= b.tokens + Earned(p, b.last, now)
    ensures Refilled(p, b, now) == p.burst || Refilled(p, b, now) == b.tokens + Earned(p, b.last, now)
  {
    EarnedGrows(p, b.last, now);
  }

  /** One event of a bucket: it stays within the burst and pays for what it allows. */
  ghost predicate Pays(s: Option<Bucket>, now: real, o: Outcome<Bucket>, burst: real, credit: Credit) {
    && 0.0 <= o.state.tokens && o.state.last == now
    && Unit(o.ok) as real + o.state.tokens <= burst
    && (s.Some? ==> Unit(o.ok) as real + o.state.tokens <= s.value.tokens + credit(now) - credit(s.value.last))
  }

  /** The state of a bucket that may meet an event at `now`. */
  ghost predicate Meets(s: Option<Bucket>, now: real, burst: real) {
    s.Some? ==> 0.0 <= s.value.tokens <= burst && s.value.last <= now
  }

  /**
    What a token bucket does to its state: it stays within the burst, remembers the
    time of the event, and pays one token for each allowed event out of what it had
    and what it earned.
   */
  ghost predicate Conserving(step: Stepper<Bucket>, burst: real, credit: Credit) {
    forall s: Option<Bucket>, now: real :: Meets(s, now, burst) ==> Pays(s, now, step(s, now), burst, credit)
  }

  lemma TakePays(p: Policy, s: Option<Bucket>, now: real)
    requires p.Valid() && Meets(s, now, p.burst)
    ensures Pays(s, now, Taker(p)(s, now), p.burst, CreditOf(p))
  {
    var b := if s.None? then Bucket(p.burst, now) else s.value;
    RefillBounds(p, b, now);
    EarnedIsCredit(p, b.last, now);
  }

  lemma TakeConserves(p: Policy)
    requires p.Valid()
    ensures Conserving(Taker(p), p.burst, CreditOf(p))
  {
    forall s: Option<Bucket>, now: real | Meets(s, now, p.burst)
      ensures Pays(s, now, Taker(p)(s, now), p.burst, CreditOf(p))
    {
      TakePays(p, s, now);
    }
  }

  /** Where a run of one bucket may start. */
  ghost predicate Startable(burst: real, s: Option<Bucket>, times: seq<real>) {
    && Ordered(times)
    && (s.Some? ==> 0.0 <= s.value.tokens <= burst && (times != [] ==> s.value.last <= times[0]))
  }

  /** The bucket never goes negative and never exceeds the burst. */
  lemma {:induction false} BucketInv(
    step: Stepper<Bucket>, burst: real, credit: Credit, s: Option<Bucket>, times: seq<real>, k: nat)
    requires Conserving(step, burst, credit) && Startable(burst, s, times) && k <= |times|
    ensures var a := After(step, s, times[..k]);
            && (a.Some? ==> 0.0 <= a.value.tokens <= burst)
            && (k > 0 ==> a.Some? && a.value.last == times[k - 1])
            && (k < |times| ==> Meets(a, times[k], burst))
  {
    if k > 0 {
      BucketInv(step, burst, credit, s, times, k - 1);
      AfterStep(step, s, times, k);
    }
  }

  /** What event j-1 pays for comes from the burst, and from what the bucket held and earned since. */
  lemma LastEventAccount(
    step: Stepper<Bucket>, burst: real, credit: Credit, s: Option<Bucket>, times: seq<real>, j: nat)
    requires Conserving(step, burst, credit) && Startable(burst, s, times) && 0 < j <= |times|
    ensures After(step, s, times[..j]).Some?
    ensures var paid := Unit(OkAt(step, s, times, j - 1)) as real + After(step, s, times[..j]).value.tokens;
            && paid <= burst
            && (j > 1 ==> After(step, s, times[..j - 1]).Some?
                          && paid <= After(step, s, times[..j - 1]).value.tokens + credit(times[j - 1]) - credit(times[j - 2]))
  {
    BucketInv(step, burst, credit, s, times, j - 1);
    AfterStep(step, s, times, j);
  }

  /** What is allowed from event i on, and what is left, comes from the burst and the refill. */
  lemma {:induction false} Potential(
    step: Stepper<Bucket>, burst: real, credit: Credit, s: Option<Bucket>, times: seq<real>, i: nat, j: nat)
    requires Conserving(step, burst, credit) && Startable(burst, s, times) && i < j <= |times|
    ensures After(step, s, times[..j]).Some?
    ensures Allowed(step, s, times, i, j) as real + After(step, s, times[..j]).value.tokens
            <= burst + credit(times[j - 1]) - credit(times[i])
    decreases j
  {
    LastEventAccount(step, burst, credit, s, times, j);
    if i < j - 1 {
      Potential(step, burst, credit, s, times, i, j - 1);
    } else {
      assert Allowed(step, s, times, i, i) == 0;
    }
  }

  /** The same account, opened at the bucket's own state. */
  lemma {:induction false} PotentialFrom(
    step: Stepper<Bucket>, burst: real, credit: Credit, b: Bucket, times: seq<real>, j: nat)
    requires Conserving(step, burst, credit) && Startable(burst, Some(b), times) && 0 < j <= |times|
    ensures After(step, Some(b), times[..j]).Some?
    ensures Allowed(step, Some(b), times, 0, j) as real + After(step, Some(b), times[..j]).value.tokens
            <= b.tokens + credit(times[j - 1]) - credit(b.last)
  {
    LastEventAccount(step, burst, credit, Some(b), times, j);
    if j > 1 {
      PotentialFrom(step, burst, credit, b, times, j - 1);
    } else {
      AfterStep(step, Some(b), times, 1);
      assert times[..0] == [] && Meets(Some(b), times[0], burst);
      assert Allowed(step, Some(b), times, 0, 0) == 0;
    }
  }

  lemma WindowBound(step: Stepper<Bucket>, burst: real, credit: Credit, s: Option<Bucket>, times: seq<real>, i: nat, j: nat)
    requires Conserving(step, burst, credit) && Startable(burst, s, times) && i < j <= |times|
    ensures Allowed(step, s, times, i, j) as real <= burst + credit(times[j - 1]) - credit(times[i])
  {
    Potential(step, burst, credit, s, times, i, j);
    BucketInv(step, burst, credit, s, times, j);
  }

  /**
    Rate bound.  Of the events i..j-1 of one key, at most burst + rate * T are
    allowed, where T is the time from the first to the last of them.
   */
  lemma RateBound(p: Policy, s: Option<Bucket>, times: seq<real>, i: nat, j: nat)
    requires p.Valid() && Startable(p.burst, s, times) && i < j <= |times|
    ensures Allowed(Taker(p), s, times, i, j) as real <= p.burst + Earned(p, times[i], times[j - 1])
  {
    TakeConserves(p);
    WindowBound(Taker(p), p.burst, CreditOf(p), s, times, i, j);
    EarnedIsCredit(p, times[i], times[j - 1]);
  }

  lemma EarnedMonotone(p: Policy, a: real, b: real, length: real)
    requires p.Valid() && b - a <= length
    ensures Earned(p, a, b) <= Earned(p, 0.0, length)
  {
    Distributes(length - 0.0, b - a, p.rate);
    ProductNonNegative(length - (b - a), p.rate);
  }

  /** In a time window of any length T, at most burst + rate * T events of a key are allowed. */
  lemma RateBoundInWindow(p: Policy, s: Option<Bucket>, times: seq<real>, i: nat, j: nat, length: real)
    requires p.Valid() && Startable(p.burst, s, times) && i < j <= |times|
    requires times[j - 1] - times[i] <= length
    ensures Allowed(Taker(p), s, times, i, j) as real <= p.burst + Earned(p, 0.0, length)
  {
    RateBound(p, s, times, i, j);
    EarnedMonotone(p, times[i], times[j - 1], length);
  }

  // ---------------------------------------------------------------------------
  // The rate bound inside a run over many keys, with resets.
  // ---------------------------------------------------------------------------

  /** The clock of the events that read it never goes back. */
  predicate Clocked(events: seq<Event>) {
    forall i, j :: 0 <= i < j < |events| && events[i].Ask? && events[j].Ask? ==> events[i].now <= events[j].now
  }

  /** How many of the events i..j-1 of this key were allowed, from an empty limiter on. */
  function AllowedFor(step: Stepper<Bucket>, events: seq<Event>, key: string, i: nat, j: nat): nat
    requires i <= j <= |events|
    decreases j
  {
    if i == j then 0
    else
      AllowedFor(step, events, key, i, j - 1) + Unit(events[j - 1].key == key && Passes(step, map[], events, j - 1))
  }

  /** How often this key was forgotten by the events i..j-1. */
  function Forgets(events: seq<Event>, key: string, i: nat, j: nat): nat
    requires i <= j <= |events|
    decreases j
  {
    if i == j then 0 else Forgets(events, key, i, j - 1) + Unit(events[j - 1] == Forget(key))
  }

  /** The last time that this key asked among the events i..j-1, or `lo`. */
  function LastAsk(events: seq<Event>, key: string, i: nat, j: nat, lo: real): real
    requires i <= j <= |events|
    decreases j
  {
    if i == j then lo
    else if events[j - 1].Ask? && events[j - 1].key == key then events[j - 1].now
    else LastAsk(events, key, i, j - 1, lo)
  }

  /** n bursts, added up. */
  function Bursts(n: nat, burst: real): real { if n == 0 then 0.0 else Bursts(n - 1, burst) + burst }

  lemma {:induction false} BurstsMeaning(n: nat, burst: real)
    ensures Bursts(n, burst) == n as real * burst
    ensures burst >= 0.0 ==> Bursts(n, burst) >= 0.0
  {
    if n > 0 {
      BurstsMeaning(n - 1, burst);
      assert n as real * burst == (n - 1) as real * burst + burst;
    }
  }

  /** What is left to spend: a new key has a whole burst. */
  function Worth(s: Option<Bucket>, burst: real): real { if s.None? then burst else s.value.tokens }

  /** A stored bucket is within its bounds and no younger than any event still to come. */
  ghost predicate Sane(s: Option<Bucket>, events: seq<Event>, n: nat, burst: real) {
    forall k :: n <= k < |events| && events[k].Ask? ==> Meets(s, events[k].now, burst)
  }

  ghost predicate Bounded(s: Option<Bucket>, burst: real) { s.Some? ==> 0.0 <= s.value.tokens <= burst }

  lemma StateStep(step: Stepper<Bucket>, events: seq<Event>, key: string, n: nat)
    requires 0 < n <= |events|
    ensures var e, before := events[n - 1], StateOf(step, map[], events, key, n - 1);
            StateOf(step, map[], events, key, n) ==
            if e.key != key then before else if e.Forget? then None else Some(step(before, e.now).state)
    ensures events[n - 1].Ask? && events[n - 1].key == key ==>
              Passes(step, map[], events, n - 1) ==
              step(StateOf(step, map[], events, key, n - 1), events[n - 1].now).ok
  {
  }

  lemma {:induction false} AlwaysSane(
    step: Stepper<Bucket>, burst: real, credit: Credit, events: seq<Event>, key: string, n: nat)
    requires Conserving(step, burst, credit) && Clocked(events) && n <= |events|
    ensures var s := StateOf(step, map[], events, key, n); Sane(s, events, n, burst) && Bounded(s, burst)
  {
    if n > 0 {
      AlwaysSane(step, burst, credit, events, key, n - 1);
      StateStep(step, events, key, n);
      var before, e := StateOf(step, map[], events, key, n - 1), events[n - 1];
      if e.Ask? && e.key == key {
        assert Meets(before, e.now, burst);
        assert Pays(before, e.now, step(before, e.now), burst, credit);
      }
    }
  }

  /** Every event of the window that reads the clock reads a time from lo to hi. */
  predicate Within(events: seq<Event>, i: nat, j: nat, lo: real, hi: real)
    requires i <= j <= |events|
  {
    forall k :: i <= k < j && events[k].Ask? ==> lo <= events[k].now <= hi
  }

  /**
    The account of a window: what was allowed and what is left to spend is covered by one
    burst, one more for each time the key was forgotten, and the refill.
   */
  ghost predicate Balanced(
    s: Option<Bucket>, allowed: nat, forgets: nat, lastAsk: real, burst: real, credit: Credit, lo: real)
  {
    && allowed as real + Worth(s, burst) <= Bursts(forgets + 1, burst) + credit(lastAsk) - credit(lo)
    && (s.Some? ==> s.value.last == lastAsk || (allowed == 0 && lastAsk == lo))
  }

  lemma BalancedAsk(
    s: Option<Bucket>, now: real, o: Outcome<Bucket>, allowed: nat, forgets: nat, lastAsk: real,
    burst: real, credit: Credit, lo: real)
    requires burst > 0.0 && credit(lo) <= credit(lastAsk) <= credit(now)
    requires Balanced(s, allowed, forgets, lastAsk, burst, credit, lo) && Pays(s, now, o, burst, credit)
    ensures Balanced(Some(o.state), allowed + Unit(o.ok), forgets, now, burst, credit, lo)
  {
    BurstsMeaning(forgets, burst);
    assert Bursts(forgets + 1, burst) == Bursts(forgets, burst) + burst;
  }

  lemma BalancedForget(
    s: Option<Bucket>, allowed: nat, forgets: nat, lastAsk: real, burst: real, credit: Credit, lo: real)
    requires Bounded(s, burst) && burst > 0.0
    requires Balanced(s, allowed, forgets, lastAsk, burst, credit, lo)
    ensures Balanced(None, allowed, forgets + 1, lastAsk, burst, credit, lo)
  {
    assert Bursts(forgets + 2, burst) == Bursts(forgets + 1, burst) + burst;
  }

  lemma {:induction false} LastAskWithin(events: seq<Event>, key: string, i: nat, j: nat, lo: real, hi: real)
    requires i <= j <= |events| && Clocked(events) && Within(events, i, j, lo, hi) && lo <= hi
    ensures lo <= LastAsk(events, key, i, j, lo) <= hi
    ensures j < |events| && events[j].Ask? && events[j].now >= lo ==> LastAsk(events, key, i, j, lo) <= events[j].now
    decreases j
  {
    if i < j {
      LastAskWithin(events, key, i, j - 1, lo, hi);
      LastAskBefore(events, key, i, j, lo);
    }
  }

  lemma {:induction false} LastAskBefore(events: seq<Event>, key: string, i: nat, j: nat, lo: real)
    requires i <= j <= |events| && Clocked(events)
    ensures forall k :: j <= k < |events| && events[k].Ask? && events[k].now >= lo ==>
              LastAsk(events, key, i, j, lo) <= events[k].now
    decreases j
  {
    if i < j {
      LastAskBefore(events, key, i, j - 1, lo);
    }
  }

  lemma WindowStep(
    step: Stepper<Bucket>, burst: real, credit: Credit, events: seq<Event>, key: string, i: nat, n: nat, lo: real, hi: real)
    requires Conserving(step, burst, credit) && Growing(credit) && burst > 0.0
    requires Clocked(events) && i < n <= |events| && Within(events, i, n, lo, hi) && lo <= hi
    requires Balanced(StateOf(step, map[], events, key, n - 1), AllowedFor(step, events, key, i, n - 1),
                      Forgets(events, key, i, n - 1), LastAsk(events, key, i, n - 1, lo), burst, credit, lo)
    ensures Balanced(StateOf(step, map[], events, key, n), AllowedFor(step, events, key, i, n),
                     Forgets(events, key, i, n), LastAsk(events, key, i, n, lo), burst, credit, lo)
  {
    var before, e := StateOf(step, map[], events, key, n - 1), events[n - 1];
    var lastAsk := LastAsk(events, key, i, n - 1, lo);
    StateStep(step, events, key, n);
    AlwaysSane(step, burst, credit, events, key, n - 1);
    if e.key == key {
      if e.Ask? {
        LastAskWithin(events, key, i, n - 1, lo, hi);
        assert Meets(before, e.now, burst);
        BalancedAsk(before, e.now, step(before, e.now), AllowedFor(step, events, key, i, n - 1),
                    Forgets(events, key, i, n - 1), lastAsk, burst, credit, lo);
      } else {
        BalancedForget(before, AllowedFor(step, events, key, i, n - 1), Forgets(events, key, i, n - 1),
                       lastAsk, burst, credit, lo);
      }
    }
  }

  lemma {:induction false} WindowBalanced(
    step: Stepper<Bucket>, burst: real, credit: Credit, events: seq<Event>, key: string, i: nat, n: nat, lo: real, hi: real)
    requires Conserving(step, burst, credit) && Growing(credit) && burst > 0.0
    requires Clocked(events) && i <= n <= |events| && Within(events, i, n, lo, hi) && lo <= hi
    ensures Balanced(StateOf(step, map[], events, key, n), AllowedFor(step, events, key, i, n),
                     Forgets(events, key, i, n), LastAsk(events, key, i, n, lo), burst, credit, lo)
    decreases n
  {
    if i == n {
      AlwaysSane(step, burst, credit, events, key, n);
      assert Bursts(1, burst) == Bursts(0, burst) + burst;
    } else {
      WindowBalanced(step, burst, credit, events, key, i, n - 1, lo, hi);
      WindowStep(step, burst, credit, events, key, i, n, lo, hi);
    }
  }

  /**
    The rate bound in any run of a limiter, over any keys and with any resets.  In a window
    of time from lo to hi in which a key was reset r times, at most (r + 1) * burst +
    rate * T of its events are allowed.
   */
  lemma RateBoundWithResets(p: Policy, events: seq<Event>, key: string, i: nat, j: nat, lo: real, hi: real)
    requires p.Valid() && Clocked(events) && i <= j <= |events| && lo <= hi && Within(events, i, j, lo, hi)
    ensures AllowedFor(Taker(p), events, key, i, j) as real
            <= (Forgets(events, key, i, j) + 1) as real * p.burst + Earned(p, lo, hi)
  {
    AccountWithResets(p, events, key, i, j, lo, hi);
    BurstsMeaning(Forgets(events, key, i, j) + 1, p.burst);
  }

  lemma AccountWithResets(p: Policy, events: seq<Event>, key: string, i: nat, j: nat, lo: real, hi: real)
    requires p.Valid() && Clocked(events) && i <= j <= |events| && lo <= hi && Within(events, i, j, lo, hi)
    ensures AllowedFor(Taker(p), events, key, i, j) as real
            <= Bursts(Forgets(events, key, i, j) + 1, p.burst) + Earned(p, lo, hi)
  {
    TakeConserves(p);
    CreditGrows(p);
    AccountOfWindow(Taker(p), p.burst, CreditOf(p), events, key, i, j, lo, hi);
    EarnedIsCredit(p, lo, hi);
  }

  lemma AccountOfWindow(
    step: Stepper<Bucket>, burst: real, credit: Credit, events: seq<Event>, key: string, i: nat, n: nat, lo: real, hi: real)
    requires Conserving(step, burst, credit) && Growing(credit) && burst > 0.0
    requires Clocked(events) && i <= n <= |events| && Within(events, i, n, lo, hi) && lo <= hi
    ensures AllowedFor(step, events, key, i, n) as real
            <= Bursts(Forgets(events, key, i, n) + 1, burst) + credit(hi) - credit(lo)
  {
    WindowBalanced(step, burst, credit, events, key, i, n, lo, hi);
    AlwaysSane(step, burst, credit, events, key, n);
    LastAskWithin(events, key, i, n, lo, hi);
  }

  // ---------------------------------------------------------------------------
  // "n per minute", exactly.
  // ---------------------------------------------------------------------------

  /** The policy of the guards: n tokens, refilled at n per minute. */
  function PerMinute(n: nat): Policy { Policy(n as real / 60.0, n as real) }

  /** One event at once and then one each time a token has been earned. */
  function PaceAt(n: nat, start: real, i: nat): real
    requires n > 0
  {
    start + i as real * (60.0 / n as real)
  }

  function Pacing(n: nat, start: real, k: nat): seq<real>
    requires n > 0
  {
    seq(k, i requires 0 <= i < k => PaceAt(n, start, i))
  }

  lemma PaceEarnsOne(n: nat, start: real, i: nat)
    requires n > 0
    ensures PaceAt(n, start, i) < PaceAt(n, start, i + 1)
    ensures Earned(PerMinute(n), PaceAt(n, start, i), PaceAt(n, start, i + 1)) == 1.0
  {
    var d := 60.0 / n as real;
    assert (i + 1) as real * d == i as real * d + d;
    assert d * (n as real / 60.0) == 1.0;
  }

  lemma PacingOrdered(n: nat, start: real, k: nat)
    requires n > 0
    ensures Ordered(Pacing(n, start, k))
    ensures k > 0 ==> Pacing(n, start, k)[0] == start
  {
    var times := Pacing(n, start, k);
    forall i, j | 0 <= i < j < k ensures times[i] <= times[j] {
      assert i as real * (60.0 / n as real) <= j as real * (60.0 / n as real);
    }
  }

  /** A bucket allows an event whenever it holds or has just earned a token. */
  ghost predicate Generous(step: Stepper<Bucket>, burst: real, credit: Credit) {
    forall b: Bucket, now: real ::
      Meets(Some(b), now, burst) && b.tokens + credit(now) - credit(b.last) >= 1.0 ==> step(Some(b), now).ok
  }

  lemma TakeIsGenerous(p: Policy)
    requires p.Valid() && p.burst >= 1.0
    ensures Generous(Taker(p), p.burst, CreditOf(p))
  {
    var credit := CreditOf(p);
    forall b: Bucket, now: real | Meets(Some(b), now, p.burst) && b.tokens + credit(now) - credit(b.last) >= 1.0
      ensures Taker(p)(Some(b), now).ok
    {
      RefillBounds(p, b, now);
      EarnedIsCredit(p, b.last, now);
    }
  }

  /** Between any two consecutive events a token is earned. */
  ghost predicate WellSpaced(credit: Credit, times: seq<real>) {
    forall k :: 0 < k < |times| ==> credit(times[k]) - credit(times[k - 1]) >= 1.0
  }

  /** Well-spaced events are never refused, once the first is not. */
  lemma {:induction false} WellSpacedNeverRefused(
    step: Stepper<Bucket>, burst: real, credit: Credit, s: Option<Bucket>, times: seq<real>, k: nat)
    requires Conserving(step, burst, credit) && Generous(step, burst, credit) && WellSpaced(credit, times)
    requires Startable(burst, s, times) && k <= |times|
    requires times != [] ==> step(s, times[0]).ok
    ensures forall j :: 0 <= j < k ==> OkAt(step, s, times, j)
    ensures Allowed(step, s, times, 0, k) == k
  {
    if k > 0 {
      WellSpacedNeverRefused(step, burst, credit, s, times, k - 1);
      BucketInv(step, burst, credit, s, times, k - 1);
      if k == 1 {
        assert times[..0] == [];
      }
      assert OkAt(step, s, times, k - 1);
    }
  }

  lemma {:induction false} AllOkCounts<S>(step: Stepper<S>, s: Option<S>, times: seq<real>, k: nat)
    requires k <= |times| && forall j :: 0 <= j < |times| ==> OkAt(step, s, times, j)
    ensures Allowed(step, s, times, 0, k) == k
  {
    if k > 0 {
      AllOkCounts(step, s, times, k - 1);
    }
  }

  lemma PacingWellSpaced(n: nat, start: real, k: nat)
    requires n > 0
    ensures WellSpaced(CreditOf(PerMinute(n)), Pacing(n, start, k))
  {
    var times, credit := Pacing(n, start, k), CreditOf(PerMinute(n));
    forall j | 0 < j < k ensures credit(times[j]) - credit(times[j - 1]) >= 1.0 {
      PaceEarnsOne(n, start, j - 1);
      EarnedIsCredit(PerMinute(n), times[j - 1], times[j]);
    }
  }

  /** A bucket with a token lets a paced sender through every time. */
  lemma PacedRun(n: nat, b: Bucket, k: nat)
    requires n > 0 && 1.0 <= b.tokens <= n as real
    ensures forall j :: 0 <= j < k ==> OkAt(Taker(PerMinute(n)), Some(b), Pacing(n, b.last, k), j)
  {
    var p, times := PerMinute(n), Pacing(n, b.last, k);
    TakeConserves(p);
    TakeIsGenerous(p);
    PacingWellSpaced(n, b.last, k);
    PacingOrdered(n, b.last, k);
    if k > 0 {
      EarnedNothing(p, b.last);
    }
    WellSpacedNeverRefused(Taker(p), p.burst, CreditOf(p), Some(b), times, k);
  }

  lemma EarnedNothing(p: Policy, a: real)
    ensures Earned(p, a, a) == 0.0
  {
  }

  /** The events of the minute that starts at t. */
  ghost predicate InMinute(t: real, times: seq<real>) {
    Ordered(times) && (times != [] ==> t <= times[0] && times[|times| - 1] <= t + 60.0)
  }

  lemma MinuteEarns(n: nat, a: real, b: real)
    requires n > 0 && b <= a + 60.0
    ensures Earned(PerMinute(n), a, b) <= n as real
  {
    EarnedMonotone(PerMinute(n), a, b, 60.0);
    assert 60.0 * (n as real / 60.0) == n as real;
  }

  lemma PacingFitsMinute(n: nat, b: Bucket)
    requires n > 0
    ensures InMinute(b.last, Pacing(n, b.last, n + 1))
  {
    PacingOrdered(n, b.last, n + 1);
    assert n as real * (60.0 / n as real) == 60.0;
  }

  lemma EmptyBucketKeepsLimit(n: nat, b: Bucket, times: seq<real>)
    requires n > 0 && 0.0 <= b.tokens < 1.0 && InMinute(b.last, times)
    ensures Allowed(Taker(PerMinute(n)), Some(b), times, 0, |times|) <= n
  {
    if times != [] {
      var p, j := PerMinute(n), |times|;
      assert Allowed(Taker(p), Some(b), times, 0, j) as real <= b.tokens + Earned(p, b.last, times[j - 1]) by {
        TakeConserves(p);
        AccountFrom(Taker(p), p.burst, CreditOf(p), b, times);
        EarnedIsCredit(p, b.last, times[j - 1]);
      }
      MinuteEarns(n, b.last, times[j - 1]);
    }
  }

  lemma AccountFrom(step: Stepper<Bucket>, burst: real, credit: Credit, b: Bucket, times: seq<real>)
    requires Conserving(step, burst, credit) && Startable(burst, Some(b), times) && times != []
    ensures Allowed(step, Some(b), times, 0, |times|) as real <= b.tokens + credit(times[|times| - 1]) - credit(b.last)
  {
    PotentialFrom(step, burst, credit, b, times, |times|);
    BucketInv(step, burst, credit, Some(b), times, |times|);
  }

  /** The minute that starts at the bucket's last event. */
  lemma NextMinuteHoldsIff(n: nat, b: Bucket)
    requires n > 0 && 0.0 <= b.tokens <= n as real
    ensures (forall times: seq<real> :: InMinute(b.last, times) ==>
               Allowed(Taker(PerMinute(n)), Some(b), times, 0, |times|) <= n)
            <==> b.tokens < 1.0
  {
    if b.tokens < 1.0 {
      forall times: seq<real> | InMinute(b.last, times)
        ensures Allowed(Taker(PerMinute(n)), Some(b), times, 0, |times|) <= n
      {
        EmptyBucketKeepsLimit(n, b, times);
      }
    } else {
      var times := Pacing(n, b.last, n + 1);
      PacingFitsMinute(n, b);
      PacedRun(n, b, n + 1);
      AllOkCounts(Taker(PerMinute(n)), Some(b), times, n + 1);
      assert InMinute(b.last, times) && Allowed(Taker(PerMinute(n)), Some(b), times, 0, |times|) == n + 1;
    }
  }

  /** What a key would hold at moment t; a new one holds the burst. */
  function LevelAt(p: Policy, s: Option<Bucket>, t: real): real {
    if s.None? then p.burst else Refilled(p, s.value, t)
  }

  function Settled(p: Policy, s: Option<Bucket>, t: real): Bucket { Bucket(LevelAt(p, s, t), t) }

  /** Refilling at t and again at `now` is refilling at `now`. */
  lemma RefillTwice(p: Policy, b: Bucket, t: real, now: real)
    requires p.Valid() && b.last <= t <= now
    ensures Refilled(p, Bucket(Refilled(p, b, t), t), now) == Refilled(p, b, now)
  {
    EarnedAdds(p, b.last, t, now);
    EarnedGrows(p, t, now);
    EarnedTwice(p, b.tokens, Earned(p, b.last, t), Earned(p, t, now), Earned(p, b.last, now));
  }

  /** Capping in between does not matter when what is added is not negative. */
  lemma EarnedTwice(p: Policy, tokens: real, first: real, second: real, both: real)
    requires second >= 0.0 && both == first + second
    ensures Capped(p, Capped(p, tokens + first) + second) == Capped(p, tokens + both)
  {
  }

  lemma EarnedAdds(p: Policy, a: real, b: real, c: real)
    ensures Earned(p, a, c) == Earned(p, a, b) + Earned(p, b, c)
  {
    Distributes(c - a, b - a, p.rate);
    assert (c - a) - (b - a) == c - b;
  }

  lemma EarnedGrows(p: Policy, a: real, b: real)
    requires p.Valid() && a <= b
    ensures Earned(p, a, b) >= 0.0
  {
    ProductNonNegative(b - a, p.rate);
  }

  lemma FullStaysFull(p: Policy, t: real, now: real)
    requires p.Valid() && t <= now
    ensures Refilled(p, Bucket(p.burst, t), now) == p.burst
  {
    EarnedGrows(p, t, now);
  }

  /** What a bucket does is settled by what it is refilled to. */
  lemma TakeByLevel(p: Policy, s: Option<Bucket>, s': Option<Bucket>, now: real)
    requires LevelOf(p, s, now) == LevelOf(p, s', now)
    ensures Taker(p)(s, now) == Taker(p)(s', now)
  {
  }

  function LevelOf(p: Policy, s: Option<Bucket>, now: real): real {
    Refilled(p, if s.None? then Bucket(p.burst, now) else s.value, now)
  }

  lemma SettlingChangesNothing(p: Policy, s: Option<Bucket>, t: real, now: real)
    requires p.Valid() && t <= now && (s.Some? ==> s.value.last <= t)
    ensures Taker(p)(Some(Settled(p, s, t)), now) == Taker(p)(s, now)
  {
    if s.Some? {
      RefillTwice(p, s.value, t, now);
    } else {
      FullStaysFull(p, t, now);
      FullStaysFull(p, now, now);
    }
    TakeByLevel(p, Some(Settled(p, s, t)), s, now);
  }

  /** Two states that react alike to the first event have the same run. */
  lemma {:induction false} SameRuns<S>(step: Stepper<S>, s: Option<S>, s': Option<S>, times: seq<real>, k: nat)
    requires k <= |times| && (times != [] ==> step(s, times[0]) == step(s', times[0]))
    ensures Allowed(step, s, times, 0, k) == Allowed(step, s', times, 0, k)
    ensures k > 0 ==> After(step, s, times[..k]) == After(step, s', times[..k])
  {
    if k > 0 {
      SameRuns(step, s, s', times, k - 1);
      AfterStep(step, s, times, k);
      AfterStep(step, s', times, k);
      if k == 1 {
        assert times[..0] == [];
      }
    }
  }

  /**
    The documented limit, exactly, for a bare bucket such as the connection guard's.  For
    every key, new or known, and every moment t, "at most n events in the minute from t on"
    holds for every sender if and only if the bucket, refilled up to t, holds less than one
    token.
   */
  lemma PerMinuteHoldsIff(n: nat, s: Option<Bucket>, t: real)
    requires n > 0 && (s.Some? ==> 0.0 <= s.value.tokens <= n as real && s.value.last <= t)
    ensures (forall times: seq<real> :: InMinute(t, times) ==>
               Allowed(Taker(PerMinute(n)), s, times, 0, |times|) <= n)
            <==> LevelAt(PerMinute(n), s, t) < 1.0
  {
    var p := PerMinute(n);
    var settled := Settled(p, s, t);
    LevelBounds(p, s, t);
    NextMinuteHoldsIff(n, settled);
    forall times: seq<real> | InMinute(t, times)
      ensures Allowed(Taker(p), s, times, 0, |times|) == Allowed(Taker(p), Some(settled), times, 0, |times|)
    {
      if times != [] {
        SettlingChangesNothing(p, s, t, times[0]);
      }
      SameRuns(Taker(p), s, Some(settled), times, |times|);
    }
  }

  lemma LevelBounds(p: Policy, s: Option<Bucket>, t: real)
    requires p.Valid() && (s.Some? ==> p.Holds(s.value) && s.value.last <= t)
    ensures 0.0 <= LevelAt(p, s, t) <= p.burst
  {
    if s.Some? {
      RefillBounds(p, s.value, t);
    }
  }

  // ---------------------------------------------------------------------------
  // The strike guard.
  // ---------------------------------------------------------------------------

  datatype PeerState = PeerState(bucket: Bucket, strikes: nat, blocked: bool)

  function BucketOf(s: Option<PeerState>): Option<Bucket> {
    if s.None? then None else Some(s.value.bucket)
  }

  function StrikesOf(s: Option<PeerState>): nat { if s.None? then 0 else s.value.strikes }

  predicate IsBlocked(s: Option<PeerState>) { s.Some? && s.value.blocked }

  /** A bucket whose refusals count as strikes; the third strike blocks for good. */
  function Guarded(take: Stepper<Bucket>): Stepper<PeerState> {
    (s, now) =>
      if IsBlocked(s) then Outcome(s.value, false)
      else
        var o := take(BucketOf(s), now);
        if o.ok then Outcome(PeerState(o.state, StrikesOf(s), false), true)
        else Outcome(PeerState(o.state, StrikesOf(s) + 1, StrikesOf(s) + 1 >= MAX_STRIKES), false)
  }

  function MinStrikes(n: nat): nat { if n < MAX_STRIKES then n else MAX_STRIKES }

  /** A peer that is not blocked, new or known. */
  predicate Unblocked(s: Option<PeerState>) { !IsBlocked(s) && StrikesOf(s) < MAX_STRIKES }

  /**
    Strikes, over every run of a peer that is not blocked: each refusal is a strike, up to
    three, the peer is blocked exactly at three, and until then the guard does what its
    bucket does.
   */
  lemma {:induction false} GuardRun(take: Stepper<Bucket>, start: Option<PeerState>, times: seq<real>, k: nat)
    requires k <= |times| && Unblocked(start)
    ensures Allowed(Guarded(take), start, times, 0, k) <= k
    ensures var g := After(Guarded(take), start, times[..k]);
            && StrikesOf(g) == MinStrikes(StrikesOf(start) + k - Allowed(Guarded(take), start, times, 0, k))
            && (IsBlocked(g) <==> StrikesOf(g) == 3)
            && (!IsBlocked(g) ==> BucketOf(g) == After(take, BucketOf(start), times[..k]))
  {
    if k > 0 {
      GuardRun(take, start, times, k - 1);
      AfterStep(Guarded(take), start, times, k);
      AfterStep(take, BucketOf(start), times, k);
    } else {
      assert times[..0] == [];
    }
  }

  /**
    The guard over many peers: a peer's strikes are its refusals since it was last
    unblocked, up to three, and it is blocked exactly at three.
   */
  lemma StrikesSinceUnblock(take: Stepper<Bucket>, events: seq<Event>, key: string, n: nat)
    requires n <= |events|
    ensures var g, times := StateOf(Guarded(take), map[], events, key, n), TimesOf(events, key, n);
            && Allowed(Guarded(take), None, times, 0, |times|) <= |times|
            && StrikesOf(g) == MinStrikes(|times| - Allowed(Guarded(take), None, times, 0, |times|))
            && (IsBlocked(g) <==> StrikesOf(g) == 3)
  {
    var times := TimesOf(events, key, n);
    KeysAreIndependent(Guarded(take), map[], events, key, n);
    NewPeersStartNew<PeerState>(events, key, n);
    GuardRun(take, None, times, |times|);
    assert times[..|times|] == times;
  }

  lemma {:induction false} NewPeersStartNew<S>(events: seq<Event>, key: string, n: nat)
    requires n <= |events|
    ensures StartOf<S>(None, events, key, n) == None
  {
    if n > 0 {
      NewPeersStartNew<S>(events, key, n - 1);
    }
  }

  /** Nothing is allowed after a block, whatever the peer does. */
  lemma {:induction false} BlockedForGood(take: Stepper<Bucket>, start: Option<PeerState>, times: seq<real>, k: nat, j: nat)
    requires k <= j < |times| && IsBlocked(After(Guarded(take), start, times[..k]))
    ensures !OkAt(Guarded(take), start, times, j) && IsBlocked(After(Guarded(take), start, times[..j]))
  {
    if k < j {
      BlockedForGood(take, start, times, k, j - 1);
      AfterStep(Guarded(take), start, times, j);
    }
  }

  lemma {:induction false} GuardAllowsLess(take: Stepper<Bucket>, start: Option<PeerState>, times: seq<real>, i: nat, j: nat)
    requires i <= j <= |times| && Unblocked(start)
    ensures Allowed(Guarded(take), start, times, i, j) <= Allowed(take, BucketOf(start), times, i, j)
    decreases j
  {
    if i < j {
      GuardAllowsLess(take, start, times, i, j - 1);
      GuardRun(take, start, times, j - 1);
    }
  }

  function GuardPolicy(): Policy { PerMinute(MESSAGE_RATE_PER_MINUTE) }

  /** The guard's own rate bound: 100 messages plus 100 per minute of the window. */
  lemma GuardRateBound(times: seq<real>, i: nat, j: nat)
    requires Ordered(times) && i < j <= |times|
    ensures Allowed(Guarded(Taker(GuardPolicy())), None, times, i, j) as real
            <= 100.0 + Earned(GuardPolicy(), times[i], times[j - 1])
  {
    GuardAllowsLess(Taker(GuardPolicy()), None, times, i, j);
    RateBound(GuardPolicy(), None, times, i, j);
  }

  /** As long as the bucket refuses nothing, the guard is its bucket. */
  lemma {:induction false} GuardFollowsBucket(take: Stepper<Bucket>, start: Option<PeerState>, times: seq<real>, k: nat)
    requires k <= |times| && Unblocked(start)
    requires forall j :: 0 <= j < |times| ==> OkAt(take, BucketOf(start), times, j)
    ensures var g := After(Guarded(take), start, times[..k]);
            StrikesOf(g) == StrikesOf(start) && !IsBlocked(g) && BucketOf(g) == After(take, BucketOf(start), times[..k])
    ensures forall j :: 0 <= j < k ==> OkAt(Guarded(take), start, times, j)
  {
    if k > 0 {
      GuardFollowsBucket(take, start, times, k - 1);
      AfterStep(Guarded(take), start, times, k);
      AfterStep(take, BucketOf(start), times, k);
      assert OkAt(take, BucketOf(start), times, k - 1);
    } else {
      assert times[..0] == [];
    }
  }

  lemma NextMinuteOfGuardHoldsIff(peer: PeerState)
    requires Unblocked(Some(peer)) && 0.0 <= peer.bucket.tokens <= 100.0
    ensures (forall times: seq<real> :: InMinute(peer.bucket.last, times) ==>
               Allowed(Guarded(Taker(GuardPolicy())), Some(peer), times, 0, |times|) <= MESSAGE_RATE_PER_MINUTE)
            <==> peer.bucket.tokens < 1.0
  {
    var take, n := Taker(GuardPolicy()), MESSAGE_RATE_PER_MINUTE;
    if peer.bucket.tokens < 1.0 {
      forall times: seq<real> | InMinute(peer.bucket.last, times)
        ensures Allowed(Guarded(take), Some(peer), times, 0, |times|) <= n
      {
        GuardAllowsLess(take, Some(peer), times, 0, |times|);
        EmptyBucketKeepsLimit(n, peer.bucket, times);
      }
    } else {
      var times := Pacing(n, peer.bucket.last, n + 1);
      PacingFitsMinute(n, peer.bucket);
      PacedGuardRun(peer, n + 1);
      assert InMinute(peer.bucket.last, times) && Allowed(Guarded(take), Some(peer), times, 0, |times|) == n + 1;
    }
  }

  lemma SettledPeerReactsAlike(p: Policy, s: Option<PeerState>, t: real, now: real)
    requires p.Valid() && Unblocked(s) && t <= now && (s.Some? ==> s.value.bucket.last <= t)
    ensures Guarded(Taker(p))(Some(PeerState(Settled(p, BucketOf(s), t), StrikesOf(s), false)), now) ==
            Guarded(Taker(p))(s, now)
  {
    SettlingChangesNothing(p, BucketOf(s), t, now);
    GuardedStep(Taker(p), s, now);
    GuardedStep(Taker(p), Some(PeerState(Settled(p, BucketOf(s), t), StrikesOf(s), false)), now);
  }

  /**
    The documented limit of the guard, exactly.  For every peer that is not blocked, new or
    known, and every moment t, "at most 100 messages in the minute from t on" holds whatever
    it sends if and only if its bucket, refilled up to t, holds less than one token.
   */
  lemma GuardPerMinuteHoldsIff(s: Option<PeerState>, t: real)
    requires Unblocked(s)
    requires s.Some? ==> 0.0 <= s.value.bucket.tokens <= 100.0 && s.value.bucket.last <= t
    ensures (forall times: seq<real> :: InMinute(t, times) ==>
               Allowed(Guarded(Taker(GuardPolicy())), s, times, 0, |times|) <= MESSAGE_RATE_PER_MINUTE)
            <==> LevelAt(GuardPolicy(), BucketOf(s), t) < 1.0
  {
    var p := GuardPolicy();
    var guard, settled := Guarded(Taker(p)), PeerState(Settled(p, BucketOf(s), t), StrikesOf(s), false);
    LevelBounds(p, BucketOf(s), t);
    NextMinuteOfGuardHoldsIff(settled);
    forall times: seq<real> | InMinute(t, times)
      ensures Allowed(guard, s, times, 0, |times|) == Allowed(guard, Some(settled), times, 0, |times|)
    {
      if times != [] {
        SettledPeerReactsAlike(p, s, t, times[0]);
      }
      SameRuns(guard, s, Some(settled), times, |times|);
    }
  }

  lemma PacedGuardRun(peer: PeerState, k: nat)
    requires Unblocked(Some(peer)) && 1.0 <= peer.bucket.tokens <= 100.0
    ensures var times := Pacing(MESSAGE_RATE_PER_MINUTE, peer.bucket.last, k);
            Allowed(Guarded(Taker(GuardPolicy())), Some(peer), times, 0, k) == k
  {
    var times := Pacing(MESSAGE_RATE_PER_MINUTE, peer.bucket.last, k);
    PacedRun(MESSAGE_RATE_PER_MINUTE, peer.bucket, k);
    GuardFollowsBucket(Taker(GuardPolicy()), Some(peer), times, k);
    AllOkCounts(Guarded(Taker(GuardPolicy())), Some(peer), times, k);
  }

  lemma SixTenthsEarnOne(a: real, b: real)
    requires b - a >= 0.6
    ensures Earned(GuardPolicy(), a, b) >= 1.0
  {
    EarnedMonotone(GuardPolicy(), 0.0, 0.6, b - a);
    assert GuardPolicy().rate == 100.0 / 60.0;
    assert (0.6 - 0.0) * (100.0 / 60.0) == 1.0;
  }

  /** Consecutive messages are at least 0.6 s apart. */
  predicate Polite(times: seq<real>) {
    forall k :: 0 < k < |times| ==> times[k] - times[k - 1] >= 0.6
  }

  lemma {:induction false} PoliteAscends(times: seq<real>, i: nat, j: nat)
    requires Polite(times) && i <= j < |times|
    ensures times[i] <= times[j]
  {
    if i < j {
      PoliteAscends(times, i, j - 1);
    }
  }

  lemma PoliteOrdered(times: seq<real>)
    requires Polite(times)
    ensures Ordered(times)
  {
    forall i, j | 0 <= i < j < |times| ensures times[i] <= times[j] {
      PoliteAscends(times, i, j);
    }
  }

  lemma PoliteWellSpaced(times: seq<real>)
    requires Polite(times)
    ensures WellSpaced(CreditOf(GuardPolicy()), times)
  {
    var credit := CreditOf(GuardPolicy());
    forall k | 0 < k < |times| ensures credit(times[k]) - credit(times[k - 1]) >= 1.0 {
      SixTenthsEarnOne(times[k - 1], times[k]);
      EarnedIsCredit(GuardPolicy(), times[k - 1], times[k]);
    }
  }

  lemma FirstAllowed(p: Policy, now: real)
    requires p.burst >= 1.0
    ensures Taker(p)(None, now).ok
  {
    EarnedNothing(p, now);
  }

  lemma PoliteBucketAllows(p: Policy, times: seq<real>)
    requires p.Valid() && p.burst >= 1.0 && WellSpaced(CreditOf(p), times) && Ordered(times)
    ensures forall j :: 0 <= j < |times| ==> OkAt(Taker(p), None, times, j)
  {
    TakeConserves(p);
    TakeIsGenerous(p);
    if times != [] {
      FirstAllowed(p, times[0]);
    }
    WellSpacedNeverRefused(Taker(p), p.burst, CreditOf(p), None, times, |times|);
  }

  /** A peer whose messages are at least 0.6 s apart is never refused, struck or blocked. */
  lemma PolitePeerNeverStruck(times: seq<real>)
    requires Polite(times)
    ensures var guard := Guarded(Taker(GuardPolicy()));
            && (forall j :: 0 <= j < |times| ==> OkAt(guard, None, times, j))
            && StrikesOf(After(guard, None, times)) == 0 && !IsBlocked(After(guard, None, times))
  {
    PoliteOrdered(times);
    PoliteWellSpaced(times);
    PoliteBucketAllows(GuardPolicy(), times);
    GuardFollowsBucket(Taker(GuardPolicy()), None, times, |times|);
    assert times[..|times|] == times;
  }

  lemma PacingIsPolite(k: nat)
    ensures var times := Pacing(MESSAGE_RATE_PER_MINUTE, 0.0, k);
            && Polite(times)
            && (k == 101 ==> times[100] - times[0] <= 60.0)
  {
  }

  /** The documented "at most 100 messages per minute" fails: a new, polite peer gets 101 through. */
  lemma GuardLetsMoreThroughInAMinute()
    ensures var times := Pacing(MESSAGE_RATE_PER_MINUTE, 0.0, 101);
            && Ordered(times) && times[100] - times[0] <= 60.0
            && Allowed(Guarded(Taker(GuardPolicy())), None, times, 0, 101) == 101
  {
    var times := Pacing(MESSAGE_RATE_PER_MINUTE, 0.0, 101);
    PacingIsPolite(101);
    PoliteOrdered(times);
    PolitePeerNeverStruck(times);
    AllOkCounts(Guarded(Taker(GuardPolicy())), None, times, 101);
  }

  // ---------------------------------------------------------------------------
  // The limiter objects.
  // ---------------------------------------------------------------------------

  lemma GuardedStep(take: Stepper<Bucket>, s: Option<PeerState>, now: real)
    requires !IsBlocked(s)
    ensures var o := take(BucketOf(s), now);
            Guarded(take)(s, now) ==
            if o.ok then Outcome(PeerState(o.state, StrikesOf(s), false), true)
            else Outcome(PeerState(o.state, StrikesOf(s) + 1, StrikesOf(s) + 1 >= MAX_STRIKES), false)
  {
  }

  lemma OneEvent<S>(step: Stepper<S>, states: map<string, S>, e: Event)
    ensures StatesAt(step, states, [e], 1) == Stepped(step, states, e)
  {
    assert StatesAt(step, states, [e], 0) == states;
  }

  function KeyOf(key: string): string { if key == "" then "unknown" else key }

  class Limiter {
    const policy: Policy
    var states: map<string, Bucket>

    constructor (ratePerSec: real, burst: real)
      ensures policy.Valid() && states == map[]
      ensures policy == Policy(if ratePerSec <= 0.0 then 20.0 else ratePerSec, if burst <= 0.0 then 40.0 else burst)
    {
      policy := Policy(if ratePerSec <= 0.0 then 20.0 else ratePerSec, if burst <= 0.0 then 40.0 else burst);
      states := map[];
    }

    method Allow(rawKey: string, now: real) returns (ok: bool)
      modifies this
      ensures states == StatesAt(Taker(policy), old(states), [Ask(KeyOf(rawKey), now)], 1)
      ensures (if rawKey == "" then "unknown" else rawKey) in states
      ensures ok == Taker(policy)(Lookup(old(states), KeyOf(rawKey)), now).ok
    {
      var key := if rawKey == "" then "unknown" else rawKey;
      var b := if key in states then states[key] else Bucket(policy.burst, now);
      var tokens := b.tokens + Earned(policy, b.last, now);
      if tokens > policy.burst {
        tokens := policy.burst;
      }
      ghost var taken := Taker(policy)(Lookup(states, key), now);
      assert taken == if tokens < 1.0 then Outcome(Bucket(tokens, now), false) else Outcome(Bucket(tokens - 1.0, now), true);
      ok := tokens >= 1.0;
      if ok {
        tokens := tokens - 1.0;
      }
      OneEvent(Taker(policy), states, Ask(key, now));
      states := states[key := Bucket(tokens, now)];
    }

    method Reset(key: string)
      modifies this
      ensures states == StatesAt(Taker(policy), old(states), [Forget(key)], 1)
    {
      OneEvent(Taker(policy), states, Forget(key));
      states := states - {key};
    }
  }

  class PeerGuard {
    const policy: Policy
    var peers: map<string, PeerState>

    constructor ()
      ensures policy == GuardPolicy() == Policy(100.0 / 60.0, 100.0) && peers == map[]
    {
      policy := GuardPolicy();
      peers := map[];
    }

    method Allow(rawKey: string, now: real) returns (ok: bool)
      modifies this
      ensures peers == StatesAt(Guarded(Taker(policy)), old(peers), [Ask(KeyOf(rawKey), now)], 1)
      ensures (if rawKey == "" then "unknown" else rawKey) in peers
      ensures ok == Guarded(Taker(policy))(Lookup(old(peers), KeyOf(rawKey)), now).ok
    {
      var key := if rawKey == "" then "unknown" else rawKey;
      var ps := if key in peers then peers[key] else PeerState(Bucket(policy.burst, now), 0, false);
      OneEvent(Guarded(Taker(policy)), peers, Ask(key, now));
      if ps.blocked {
        assert IsBlocked(Lookup(peers, key));
        assert peers[key := ps] == peers;
        return false;
      }
      var tokens := ps.bucket.tokens + Earned(policy, ps.bucket.last, now);
      if tokens > policy.burst {
        tokens := policy.burst;
      }
      ghost var taken := Taker(policy)(BucketOf(Lookup(peers, key)), now);
      assert taken == if tokens < 1.0 then Outcome(Bucket(tokens, now), false) else Outcome(Bucket(tokens - 1.0, now), true);
      GuardedStep(Taker(policy), Lookup(peers, key), now);
      if tokens < 1.0 {
        var strikes := ps.strikes + 1;
        peers := peers[key := PeerState(Bucket(tokens, now), strikes, strikes >= MAX_STRIKES)];
        return false;
      }
      peers := peers[key := PeerState(Bucket(tokens - 1.0, now), ps.strikes, false)];
      return true;
    }

    method Unblock(key: string)
      modifies this
      ensures peers == StatesAt(Guarded(Taker(policy)), old(peers), [Forget(key)], 1)
    {
      OneEvent(Guarded(Taker(policy)), peers, Forget(key));
      peers := peers - {key};
    }
  }

  class ConnectionGuard {
    const policy: Policy
    var states: map<string, Bucket>

    constructor ()
      ensures policy == PerMinute(10) == Policy(10.0 / 60.0, 10.0) && states == map[]
    {
      policy := PerMinute(CONNECTION_RATE_PER_MINUTE);
      states := map[];
    }

    method Allow(rawKey: string, now: real) returns (ok: bool)
      modifies this
      ensures states == StatesAt(Taker(policy), old(states), [Ask(KeyOf(rawKey), now)], 1)
      ensures (if rawKey == "" then "unknown" else rawKey) in states
      ensures ok == Taker(policy)(Lookup(old(states), KeyOf(rawKey)), now).ok
    {
      var ip := if rawKey == "" then "unknown" else rawKey;
      var b := if ip in states then states[ip] else Bucket(policy.burst, now);
      var tokens := b.tokens + Earned(policy, b.last, now);
      if tokens > policy.burst {
        tokens := policy.burst;
      }
      ghost var taken := Taker(policy)(Lookup(states, ip), now);
      assert taken == if tokens < 1.0 then Outcome(Bucket(tokens, now), false) else Outcome(Bucket(tokens - 1.0, now), true);
      ok := tokens >= 1.0;
      if ok {
        tokens := tokens - 1.0;
      }
      OneEvent(Taker(policy), states, Ask(ip, now));
      states := states[ip := Bucket(tokens, now)];
    }
  }
}
