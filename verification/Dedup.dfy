/**
  Replay suppression: a bounded store of message IDs with expiry and eviction that
  stands in for the unbounded set of all IDs ever seen.
 */
module Dedup {

  /** Nanoseconds on the process clock. */
  type Time = int

  type Ids = map<string, Time>

  const DEFAULT_CAPACITY: int := 10000
  const HOUR: Time := 3_600_000_000_000

  // ---------------------------------------------------------------------------
  // What one call may do.  Ties between equally old entries are broken by the map
  // iteration order, so an insertion is a relation rather than a function.
  // ---------------------------------------------------------------------------

  /** The entries that are not older than ttl. */
  function Unexpired(ids: Ids, now: Time, ttl: Time): Ids {
    map id | id in ids && now - ids[id] <= ttl :: ids[id]
  }

  ghost predicate Oldest(ids: Ids, id: string) {
    id in ids && forall other :: other in ids ==> ids[id] <= ids[other]
  }

  /** What is left of a store before a new ID goes in: expiry only runs on a full store. */
  function Pruned(max: nat, ttl: Time, ids: Ids, now: Time): Ids {
    if |ids| >= max then Unexpired(ids, now, ttl) else ids
  }

  ghost predicate Inserted(max: nat, ttl: Time, ids: Ids, id: string, now: Time, ids': Ids) {
    var kept := Pruned(max, ttl, ids, now);
    if |kept| < max then ids' == kept[id := now]
    else exists victim :: Oldest(kept, victim) && ids' == (kept - {victim})[id := now]
  }

  ghost predicate AddStep(max: nat, ttl: Time, ids: Ids, id: string, now: Time, ids': Ids, accepted: bool) {
    if id == "" then accepted && ids' == ids
    else if id in ids then !accepted && ids' == ids
    else accepted && Inserted(max, ttl, ids, id, now, ids')
  }

  ghost predicate HasStep(ttl: Time, ids: Ids, id: string, now: Time, ids': Ids, found: bool) {
    if id == "" || id !in ids then !found && ids' == ids
    else if now - ids[id] > ttl then !found && ids' == ids - {id}
    else found && ids' == ids
  }

  class Seen {
    var ids: Ids
    const max: nat
    const ttl: Time

    ghost predicate Valid()
      reads this
    {
      0 < max && |ids| <= max && "" !in ids
    }

    constructor (capacity: int, ttl: Time)
      ensures Valid() && ids == map[]
      ensures max == (if capacity <= 0 then 10000 else capacity)
      ensures this.ttl == (if ttl <= 0 then 3_600_000_000_000 else ttl)
    {
      ids := map[];
      max := if capacity <= 0 then DEFAULT_CAPACITY else capacity;
      this.ttl := if ttl <= 0 then HOUR else ttl;
    }

    /** Records id; reports false for a duplicate that the caller must skip. */
    method Add(id: string, now: Time) returns (accepted: bool)
      requires Valid()
      modifies this
      ensures Valid()
      ensures AddStep(max, ttl, old(ids), id, now, ids, accepted)
      ensures accepted <==> id == "" || id !in old(ids)
      ensures accepted && id != "" ==> id in ids && ids[id] == now
      ensures accepted && id != "" && |old(ids)| >= max ==> forall k :: k in ids && k != id ==> now - ids[k] <= ttl
    {
      if id == "" {
        return true;
      }
      if id in ids {
        return false;
      }
      if |ids| >= max {
        Expire(now);
      }
      var _ := Evict();
      PutOne(ids, id, now);
      ids := ids[id := now];
      return true;
    }

    /** The eviction loop: it removes one entry at most, an oldest one. */
    method Evict() returns (ghost victim: string)
      requires Valid()
      modifies this
      ensures Valid() && |ids| < max
      ensures |old(ids)| < max ==> ids == old(ids)
      ensures |old(ids)| >= max ==> Oldest(old(ids), victim) && ids == old(ids) - {victim}
    {
      victim := "";
      while |ids| >= max
        invariant ids == old(ids) || (|old(ids)| >= max && Oldest(old(ids), victim) && ids == old(ids) - {victim} && |ids| < max)
        decreases |ids|
      {
        // The empty ID is never stored, so the loop always finds an entry to evict.
        var oldest := FindOldest();
        victim := oldest;
        RemoveOne(ids, oldest);
        ids := ids - {oldest};
      }
    }

    /** The expiry loop. */
    method Expire(now: Time)
      requires Valid()
      modifies this
      ensures Valid() && ids == Unexpired(old(ids), now, ttl)
    {
      var todo := ids.Keys;
      while todo != {}
        invariant todo <= ids.Keys <= old(ids).Keys
        invariant forall k :: k in ids ==> ids[k] == old(ids)[k]
        invariant forall k :: k in old(ids) && k !in todo ==> (k in ids <==> now - old(ids)[k] <= ttl)
        decreases |todo|
      {
        var key :| key in todo;
        todo := todo - {key};
        if now - ids[key] > ttl {
          ids := ids - {key};
        }
      }
      Smaller(ids, old(ids));
    }

    /** The inner loop of the eviction. */
    method FindOldest() returns (oldest: string)
      requires ids != map[]
      ensures Oldest(ids, oldest)
    {
      oldest :| oldest in ids;
      var todo := ids.Keys - {oldest};
      while todo != {}
        invariant oldest in ids && todo <= ids.Keys
        invariant forall k :: k in ids && k !in todo ==> ids[oldest] <= ids[k]
        decreases |todo|
      {
        var key :| key in todo;
        todo := todo - {key};
        if ids[key] < ids[oldest] {
          oldest := key;
        }
      }
    }

    method Has(id: string, now: Time) returns (found: bool)
      requires Valid()
      modifies this
      ensures Valid()
      ensures HasStep(ttl, old(ids), id, now, ids, found)
      ensures found <==> id in old(ids) && now - old(ids)[id] <= ttl
    {
      if id == "" || id !in ids {
        return false;
      }
      if now - ids[id] > ttl {
        Smaller(ids - {id}, ids);
        ids := ids - {id};
        return false;
      }
      return true;
    }
  }

  lemma RemoveOne(ids: Ids, id: string)
    requires id in ids
    ensures |ids - {id}| == |ids| - 1
  {
    assert (ids - {id}).Keys == ids.Keys - {id};
  }

  lemma PutOne(ids: Ids, id: string, now: Time)
    ensures |ids[id := now]| <= |ids| + 1
  {
    assert ids[id := now].Keys == ids.Keys + {id};
  }

  lemma {:induction false} SmallerSet(a: set<string>, b: set<string>)
    requires a <= b
    ensures |a| <= |b|
  {
    assert b == a + (b - a);
  }

  lemma Smaller(a: Ids, b: Ids)
    requires a.Keys <= b.Keys
    ensures |a| <= |b|
  {
    SmallerSet(a.Keys, b.Keys);
  }

  // ---------------------------------------------------------------------------
  // Runs.
  // ---------------------------------------------------------------------------

  datatype Call = Add(id: string, now: Time) | Has(id: string, now: Time)

  ghost predicate Step(max: nat, ttl: Time, ids: Ids, c: Call, ids': Ids, result: bool) {
    match c
    case Add(id, now) => AddStep(max, ttl, ids, id, now, ids', result)
    case Has(id, now) => HasStep(ttl, ids, id, now, ids', result)
  }

  /** A run of a store that starts empty, under a clock that never goes back. */
  datatype Run = Run(max: nat, ttl: Time, states: seq<Ids>, calls: seq<Call>, results: seq<bool>) {

    ghost predicate Legal() {
      && 0 < max
      && |states| == |calls| + 1 == |results| + 1
      && states[0] == map[]
      && (forall k {:trigger results[k]} :: 0 <= k < |calls| ==> Step(max, ttl, states[k], calls[k], states[k + 1], results[k]))
      && (forall j, k :: 0 <= j < k < |calls| ==> calls[j].now <= calls[k].now)
    }

    /** Call k let a named message through. */
    predicate Accepted(k: int)
      requires |results| == |calls|
    {
      0 <= k < |calls| && calls[k].Add? && calls[k].id != "" && results[k]
    }

    /** IDs other than call i's that were accepted before call j, no earlier than call i. */
    ghost function Others(i: nat, j: nat): set<string>
      requires |results| == |calls| && i < |calls| && j <= |calls|
    {
      set k | 0 <= k < j && Accepted(k) && calls[k].id != calls[i].id && calls[k].now >= calls[i].now :: calls[k].id
    }

    /** IDs other than call i's that were accepted strictly between calls i and j. */
    ghost function Between(i: nat, j: nat): set<string>
      requires |results| == |calls| && i < |calls| && j <= |calls|
    {
      set k | i < k < j && Accepted(k) && calls[k].id != calls[i].id :: calls[k].id
    }
  }

  /** Every stored entry goes back to an accepted call at the recorded time. */
  ghost predicate Explained(r: Run, n: nat)
    requires r.Legal() && n <= |r.calls|
  {
    && |r.states[n]| <= r.max
    && forall id :: id in r.states[n] ==>
         exists k :: 0 <= k < n && r.Accepted(k) && r.calls[k].id == id && r.calls[k].now == r.states[n][id]
  }

  lemma InsertedBounded(max: nat, ttl: Time, ids: Ids, id: string, now: Time, ids': Ids)
    requires |ids| <= max && Inserted(max, ttl, ids, id, now, ids')
    ensures |ids'| <= max
    ensures forall k :: k in ids' && k != id ==> k in ids && ids'[k] == ids[k]
    ensures id in ids' && ids'[id] == now
  {
    var kept := Pruned(max, ttl, ids, now);
    Smaller(kept, ids);
    if |kept| < max {
      PutOne(kept, id, now);
    } else {
      var victim :| Oldest(kept, victim) && ids' == (kept - {victim})[id := now];
      RemoveOne(kept, victim);
      PutOne(kept - {victim}, id, now);
    }
  }

  lemma ExplainedStep(r: Run, n: nat)
    requires r.Legal() && n < |r.calls| && Explained(r, n)
    ensures Explained(r, n + 1)
  {
    var ids, c, ids' := r.states[n], r.calls[n], r.states[n + 1];
    assert Step(r.max, r.ttl, ids, c, ids', r.results[n]);
    if c.Has? {
      Smaller(ids', ids);
    } else if c.id != "" && c.id !in ids {
      InsertedBounded(r.max, r.ttl, ids, c.id, c.now, ids');
    }
    forall id | id in ids'
      ensures exists k :: 0 <= k < n + 1 && r.Accepted(k) && r.calls[k].id == id && r.calls[k].now == ids'[id]
    {
      if id in ids && ids'[id] == ids[id] {
        var k :| 0 <= k < n && r.Accepted(k) && r.calls[k].id == id && r.calls[k].now == ids[id];
        assert 0 <= k < n + 1 && r.Accepted(k);
      } else {
        assert r.Accepted(n) && r.calls[n].id == id && r.calls[n].now == ids'[id];
      }
    }
  }

  lemma {:induction false} AlwaysExplained(r: Run, n: nat)
    requires r.Legal() && n <= |r.calls|
    ensures Explained(r, n)
  {
    if n > 0 {
      AlwaysExplained(r, n - 1);
      ExplainedStep(r, n - 1);
    }
  }

  /** The store never holds more than its capacity. */
  lemma StoreBounded(r: Run, n: nat)
    requires r.Legal() && n <= |r.calls|
    ensures |r.states[n]| <= r.max
  {
    AlwaysExplained(r, n);
  }

  // ---------------------------------------------------------------------------
  // The replay window.
  // ---------------------------------------------------------------------------

  /** Call i's ID is stored, with its own time or a later one. */
  ghost predicate Kept(r: Run, i: nat, n: nat)
    requires r.Legal() && i < n <= |r.calls|
  {
    r.calls[i].id in r.states[n] && r.states[n][r.calls[i].id] >= r.calls[i].now
  }

  /** The window of call i is over: its time has passed, or newer IDs filled the store. */
  ghost predicate Over(r: Run, i: nat, n: nat)
    requires r.Legal() && i < n <= |r.calls|
  {
    r.calls[n - 1].now - r.calls[i].now > r.ttl || |r.Others(i, n)| >= r.max
  }

  ghost predicate Remembered(r: Run, i: nat, n: nat)
    requires r.Legal() && i < n <= |r.calls|
  {
    Kept(r, i, n) || Over(r, i, n)
  }

  lemma IsOther(r: Run, i: nat, n: nat, k: nat)
    requires r.Legal() && i < |r.calls| && k < n <= |r.calls|
    requires r.Accepted(k) && r.calls[k].id != r.calls[i].id && r.calls[k].now >= r.calls[i].now
    ensures r.calls[k].id in r.Others(i, n)
  {
  }

  /** An insertion drops an entry only if it expired or was the oldest of a full store. */
  lemma Displaced(max: nat, ttl: Time, ids: Ids, id: string, new_: string, now: Time, ids': Ids) returns (kept: Ids)
    requires |ids| <= max && Inserted(max, ttl, ids, new_, now, ids')
    requires id in ids && id != new_ && (id !in ids' || ids'[id] != ids[id])
    ensures now - ids[id] > ttl || (|kept| == max && Oldest(kept, id))
    ensures forall k :: k in kept ==> k in ids && kept[k] == ids[k]
  {
    kept := Pruned(max, ttl, ids, now);
    Smaller(kept, ids);
    if |kept| >= max {
      var victim :| Oldest(kept, victim) && ids' == (kept - {victim})[new_ := now];
    }
  }

  lemma EntryIsOther(r: Run, i: nat, n: nat, id: string)
    requires r.Legal() && i < |r.calls| && n <= |r.calls| && Explained(r, n)
    requires id in r.states[n] && id != r.calls[i].id && r.states[n][id] >= r.calls[i].now
    ensures id in r.Others(i, n)
  {
    var k :| 0 <= k < n && r.Accepted(k) && r.calls[k].id == id && r.calls[k].now == r.states[n][id];
    IsOther(r, i, n, k);
  }

  lemma ReplaceOne(keys: set<string>, out: string, in_: string)
    requires out in keys && in_ !in keys
    ensures |keys - {out} + {in_}| == |keys|
  {
  }

  /** Evicting call i's ID takes a full store of entries that are no older. */
  lemma EvictionNeedsOthers(r: Run, i: nat, n: nat, kept: Ids)
    requires r.Legal() && i < n < |r.calls| && Explained(r, n)
    requires r.Accepted(n) && r.calls[n].id != r.calls[i].id && r.calls[n].id !in kept
    requires r.calls[i].id in kept && |kept| == r.max
    requires forall id :: id in kept ==> id in r.states[n] && kept[id] == r.states[n][id] >= r.calls[i].now
    ensures |r.Others(i, n + 1)| >= r.max
  {
    var newer := kept.Keys - {r.calls[i].id} + {r.calls[n].id};
    ReplaceOne(kept.Keys, r.calls[i].id, r.calls[n].id);
    IsOther(r, i, n + 1, n);
    OthersGrow(r, i, n);
    KeptAreOthers(r, i, n, kept);
    SmallerSet(newer, r.Others(i, n + 1));
  }

  lemma KeptAreOthers(r: Run, i: nat, n: nat, kept: Ids)
    requires r.Legal() && i < n < |r.calls| && Explained(r, n)
    requires forall id :: id in kept ==> id in r.states[n] && r.states[n][id] >= r.calls[i].now
    ensures kept.Keys - {r.calls[i].id} <= r.Others(i, n)
  {
    forall id | id in kept && id != r.calls[i].id ensures id in r.Others(i, n) {
      EntryIsOther(r, i, n, id);
    }
  }

  lemma OthersGrow(r: Run, i: nat, n: nat)
    requires r.Legal() && i < |r.calls| && n < |r.calls|
    ensures r.Others(i, n) <= r.Others(i, n + 1) && |r.Others(i, n)| <= |r.Others(i, n + 1)|
  {
    SmallerSet(r.Others(i, n), r.Others(i, n + 1));
  }

  /** A call leaves a stored ID alone, unless it expired or was the oldest of a full store. */
  lemma CallKeepsOrDisplaces(max: nat, ttl: Time, ids: Ids, id: string, c: Call, ids': Ids, result: bool)
    returns (kept: Ids)
    requires |ids| <= max && Step(max, ttl, ids, c, ids', result) && id in ids
    ensures || (id in ids' && ids'[id] == ids[id])
            || c.now - ids[id] > ttl
            || (c.Add? && c.id != "" && c.id !in ids && result && |kept| == max && Oldest(kept, id))
    ensures forall k :: k in kept ==> k in ids && kept[k] == ids[k]
  {
    kept := map[];
    if c.Add? && c.id != "" && c.id !in ids && (id !in ids' || ids'[id] != ids[id]) {
      kept := Displaced(max, ttl, ids, id, c.id, c.now, ids');
    }
  }

  lemma OverStays(r: Run, i: nat, n: nat)
    requires r.Legal() && i < n < |r.calls| && Over(r, i, n)
    ensures Over(r, i, n + 1)
  {
    OthersGrow(r, i, n);
  }

  lemma StoredStep(r: Run, i: nat, n: nat)
    requires r.Legal() && i < n < |r.calls| && r.Accepted(i)
    requires Kept(r, i, n)
    ensures Remembered(r, i, n + 1)
  {
    AlwaysExplained(r, n);
    var id, ids, c, ids' := r.calls[i].id, r.states[n], r.calls[n], r.states[n + 1];
    var kept := CallKeepsOrDisplaces(r.max, r.ttl, ids, id, c, ids', r.results[n]);
    if !(id in ids' && ids'[id] == ids[id]) && c.now - ids[id] <= r.ttl {
      EvictionNeedsOthers(r, i, n, kept);
    }
  }

  lemma RememberedStep(r: Run, i: nat, n: nat, next: nat)
    requires r.Legal() && i < n < |r.calls| && r.Accepted(i) && next == n + 1
    requires Remembered(r, i, n)
    ensures Remembered(r, i, next)
  {
    if Kept(r, i, n) {
      StoredStep(r, i, n);
    } else {
      OverStays(r, i, n);
    }
  }

  lemma {:induction false} StaysRemembered(r: Run, i: nat, n: nat)
    requires r.Legal() && i < n <= |r.calls| && r.Accepted(i)
    ensures Remembered(r, i, n)
  {
    if n == i + 1 {
      JustRemembered(r, i, n);
    } else {
      StaysRemembered(r, i, n - 1);
      RememberedStep(r, i, n - 1, n);
    }
  }

  lemma JustRemembered(r: Run, i: nat, next: nat)
    requires r.Legal() && r.Accepted(i) && next == i + 1
    ensures i < |r.calls| && Remembered(r, i, next)
  {
    AlwaysExplained(r, i);
    var c := r.calls[i];
    assert Step(r.max, r.ttl, r.states[i], c, r.states[i + 1], r.results[i]);
    InsertedBounded(r.max, r.ttl, r.states[i], c.id, c.now, r.states[i + 1]);
  }

  /**
    Replay window.  If the store lets the same ID through twice, then more than ttl
    passed between the two calls or at least `max` other IDs were accepted meanwhile.
   */
  lemma ReplayWindow(r: Run, i: nat, j: nat)
    requires r.Legal() && i < j && r.Accepted(i) && r.Accepted(j) && r.calls[i].id == r.calls[j].id
    ensures r.calls[j].now - r.calls[i].now > r.ttl || |r.Others(i, j)| >= r.max
  {
    StaysRemembered(r, i, j);
    assert Step(r.max, r.ttl, r.states[j], r.calls[j], r.states[j + 1], r.results[j]);
  }

  /** Under a strictly increasing clock the other IDs lie strictly between the two calls. */
  lemma ReplayWindowStrict(r: Run, i: nat, j: nat)
    requires r.Legal() && i < j && r.Accepted(i) && r.Accepted(j) && r.calls[i].id == r.calls[j].id
    requires Strict(r)
    ensures r.calls[j].now - r.calls[i].now > r.ttl || |r.Between(i, j)| >= r.max
  {
    ReplayWindow(r, i, j);
    assert r.Others(i, j) <= r.Between(i, j);
    SmallerSet(r.Others(i, j), r.Between(i, j));
  }

  // ---------------------------------------------------------------------------
  // Exactly which IDs are stored, told from the times and results of the calls.
  // ---------------------------------------------------------------------------

  /** The clock moves between any two calls. */
  ghost predicate Strict(r: Run) {
    forall a, b :: 0 <= a < b < |r.calls| ==> r.calls[a].now < r.calls[b].now
  }

  /** No earlier call of the live ones is older than ttl at call k. */
  ghost predicate NoneExpired(r: Run, live: set<nat>, k: nat)
    requires k < |r.calls| && forall i :: i in live ==> i < |r.calls|
  {
    forall i :: i in live ==> r.calls[k].now - r.calls[i].now <= r.ttl
  }

  /**
    Call k drops the ID of the live call i: a look-up of that very ID finds it expired, or a
    new ID meets a full store and i has expired or, if none has, is the earliest.
   */
  ghost predicate Drops(r: Run, live: set<nat>, i: nat, k: nat)
    requires |r.results| == |r.calls| && i < |r.calls| && k < |r.calls| && forall j :: j in live ==> j < |r.calls|
  {
    || (r.calls[k].Has? && r.calls[k].id == r.calls[i].id && r.calls[k].now - r.calls[i].now > r.ttl)
    || (r.Accepted(k) && |live| >= r.max
        && (r.calls[k].now - r.calls[i].now > r.ttl || (NoneExpired(r, live, k) && forall j :: j in live ==> i <= j)))
  }

  ghost function Dropped(r: Run, live: set<nat>, k: nat): set<nat>
    requires |r.results| == |r.calls| && k < |r.calls| && forall j :: j in live ==> j < |r.calls|
  {
    set i | i in live && Drops(r, live, i, k)
  }

  /** The accepted calls among the first n whose IDs are still stored. */
  ghost function Live(r: Run, n: nat): (live: set<nat>)
    requires |r.results| == |r.calls| && n <= |r.calls|
    ensures forall i :: i in live ==> i < n && r.Accepted(i)
  {
    if n == 0 then {}
    else
      var before := Live(r, n - 1);
      before - Dropped(r, before, n - 1) + (if r.Accepted(n - 1) then {n - 1} else {})
  }

  lemma LiveNext(r: Run, i: nat, k: nat, next: nat)
    requires |r.results| == |r.calls| && k < |r.calls| && next == k + 1
    ensures i in Live(r, next) <==> (i in Live(r, k) && !Drops(r, Live(r, k), i, k)) || (i == k && r.Accepted(k))
  {
  }

  /** No call from i + 1 to n - 1 drops call i. */
  ghost predicate Undropped(r: Run, i: nat, n: nat)
    requires |r.results| == |r.calls| && i < n <= |r.calls|
  {
    n == i + 1 || (Undropped(r, i, n - 1) && !Drops(r, Live(r, n - 1), i, n - 1))
  }

  /** A call is live exactly if it was accepted and no later call dropped it. */
  lemma {:induction false} LiveMeaning(r: Run, i: nat, n: nat)
    requires |r.results| == |r.calls| && i < n <= |r.calls|
    ensures i in Live(r, n) <==> r.Accepted(i) && Undropped(r, i, n)
  {
    LiveNext(r, i, n - 1, n);
    if i < n - 1 {
      LiveMeaning(r, i, n - 1);
    }
  }

  /** The store holds the IDs of the live calls with their times, each once. */
  ghost predicate Mirrors(r: Run, ids: Ids, live: set<nat>)
    requires forall i :: i in live ==> i < |r.calls|
  {
    && (forall i :: i in live ==> r.calls[i].id in ids && ids[r.calls[i].id] == r.calls[i].now)
    && (forall id :: id in ids ==> exists i :: i in live && r.calls[i].id == id)
    && (forall i, j :: i in live && j in live && r.calls[i].id == r.calls[j].id ==> i == j)
  }

  /** The IDs of some calls. */
  ghost function IdsOf(r: Run, live: set<nat>): set<string>
    requires forall i :: i in live ==> i < |r.calls|
  {
    set i | i in live :: r.calls[i].id
  }

  lemma {:induction false} DistinctIdsCount(r: Run, live: set<nat>)
    requires forall i :: i in live ==> i < |r.calls|
    requires forall i, j :: i in live && j in live && r.calls[i].id == r.calls[j].id ==> i == j
    ensures |IdsOf(r, live)| == |live|
    decreases |live|
  {
    if live != {} {
      var i :| i in live;
      var rest := live - {i};
      DistinctIdsCount(r, rest);
      assert IdsOf(r, live) == IdsOf(r, rest) + {r.calls[i].id};
      assert r.calls[i].id !in IdsOf(r, rest);
    } else {
      assert IdsOf(r, live) == {};
    }
  }

  lemma MirrorSize(r: Run, ids: Ids, live: set<nat>)
    requires forall i :: i in live ==> i < |r.calls|
    requires Mirrors(r, ids, live)
    ensures |ids| == |live|
  {
    DistinctIdsCount(r, live);
    assert ids.Keys == IdsOf(r, live);
  }

  lemma StoredFor(r: Run, ids: Ids, live: set<nat>, id: string) returns (i: nat)
    requires (forall j :: j in live ==> j < |r.calls|) && Mirrors(r, ids, live) && id in ids
    ensures i in live && r.calls[i].id == id && ids[id] == r.calls[i].now
  {
    var j :| j in live && r.calls[j].id == id;
    i := j;
  }

  /** Under a strictly increasing clock, the earliest live call is the oldest entry. */
  lemma OldestIsEarliest(r: Run, ids: Ids, live: set<nat>, i: nat)
    requires (forall j :: j in live ==> j < |r.calls|) && Strict(r) && Mirrors(r, ids, live) && i in live
    ensures Oldest(ids, r.calls[i].id) <==> forall j :: j in live ==> i <= j
  {
    if forall j :: j in live ==> i <= j {
      forall id | id in ids ensures ids[r.calls[i].id] <= ids[id] {
        var j := StoredFor(r, ids, live, id);
      }
    } else {
      var j :| j in live && j < i;
      assert ids[r.calls[j].id] < ids[r.calls[i].id];
    }
  }

  /** A full store stays full exactly if none of its entries has expired. */
  lemma PrunedSize(r: Run, ids: Ids, live: set<nat>, k: nat)
    requires k < |r.calls| && (forall j :: j in live ==> j < |r.calls|) && Mirrors(r, ids, live)
    ensures NoneExpired(r, live, k) ==> Unexpired(ids, r.calls[k].now, r.ttl) == ids
    ensures !NoneExpired(r, live, k) ==> |Unexpired(ids, r.calls[k].now, r.ttl)| < |ids|
  {
    var kept := Unexpired(ids, r.calls[k].now, r.ttl);
    if !NoneExpired(r, live, k) {
      var i :| i in live && r.calls[k].now - r.calls[i].now > r.ttl;
      Smaller(kept, ids - {r.calls[i].id});
      RemoveOne(ids, r.calls[i].id);
    } else {
      forall id | id in ids ensures r.calls[k].now - ids[id] <= r.ttl {
        var i := StoredFor(r, ids, live, id);
      }
    }
  }

  /** The store and the live calls that call k finds, when it lets a new ID in. */
  ghost predicate Meets(r: Run, ids: Ids, live: set<nat>, k: nat) {
    && 0 < r.max && |r.results| == |r.calls| && k < |r.calls| && (forall j :: j in live ==> j < k)
    && Mirrors(r, ids, live) && |ids| <= r.max && r.Accepted(k) && r.calls[k].id !in ids
  }

  /** What remains of the store: the entries `ids'` outside the new ID. */
  ghost predicate Keeps(r: Run, ids': Ids, live: set<nat>, k: nat, i: nat)
    requires |r.results| == |r.calls| && k < |r.calls| && i in live && forall j :: j in live ==> j < |r.calls|
  {
    && (r.calls[i].id in ids' <==> !Drops(r, live, i, k))
    && (r.calls[i].id in ids' ==> ids'[r.calls[i].id] == r.calls[i].now)
  }

  lemma KeepsAll(r: Run, ids: Ids, live: set<nat>, k: nat, i: nat)
    requires Meets(r, ids, live, k) && |ids| < r.max && i in live
    ensures Keeps(r, ids[r.calls[k].id := r.calls[k].now], live, k, i)
  {
    MirrorSize(r, ids, live);
  }

  lemma KeepsUnexpired(r: Run, ids: Ids, live: set<nat>, k: nat, i: nat)
    requires Meets(r, ids, live, k) && |ids| >= r.max && !NoneExpired(r, live, k) && i in live
    ensures Keeps(r, Unexpired(ids, r.calls[k].now, r.ttl)[r.calls[k].id := r.calls[k].now], live, k, i)
  {
    MirrorSize(r, ids, live);
  }

  lemma KeepsAllButEarliest(r: Run, ids: Ids, live: set<nat>, k: nat, victim: string, i: nat)
    requires Meets(r, ids, live, k) && Strict(r) && |ids| >= r.max && NoneExpired(r, live, k) && i in live
    requires Oldest(ids, victim)
    ensures Keeps(r, (ids - {victim})[r.calls[k].id := r.calls[k].now], live, k, i)
  {
    MirrorSize(r, ids, live);
    OldestIsEarliest(r, ids, live, i);
    var v := StoredFor(r, ids, live, victim);
    OldestIsEarliest(r, ids, live, v);
    assert Drops(r, live, i, k) <==> i == v;
  }

  /** An insertion keeps exactly the entries that the call does not drop. */
  lemma InsertKeepsUndropped(r: Run, ids: Ids, live: set<nat>, k: nat, ids': Ids, i: nat)
    requires Meets(r, ids, live, k) && Strict(r) && i in live
    requires Inserted(r.max, r.ttl, ids, r.calls[k].id, r.calls[k].now, ids')
    ensures Keeps(r, ids', live, k, i)
  {
    if |ids| < r.max {
      KeepsAll(r, ids, live, k, i);
    } else {
      PrunedSize(r, ids, live, k);
      if NoneExpired(r, live, k) {
        var victim :| Oldest(ids, victim) && ids' == (ids - {victim})[r.calls[k].id := r.calls[k].now];
        KeepsAllButEarliest(r, ids, live, k, victim, i);
      } else {
        KeepsUnexpired(r, ids, live, k, i);
      }
    }
  }

  /** The mirror of a store after an insertion, from what it did to each entry. */
  lemma MirrorInsert(r: Run, ids: Ids, live: set<nat>, dropped: set<nat>, k: nat, ids': Ids)
    requires k < |r.calls| && (forall j :: j in live ==> j < k) && Mirrors(r, ids, live) && r.calls[k].id !in ids
    requires forall i :: i in live ==> (r.calls[i].id in ids' <==> i !in dropped)
    requires forall i :: i in live && i !in dropped ==> r.calls[i].id in ids' && ids'[r.calls[i].id] == r.calls[i].now
    requires forall id :: id in ids' && id != r.calls[k].id ==> id in ids
    requires r.calls[k].id in ids' && ids'[r.calls[k].id] == r.calls[k].now
    ensures Mirrors(r, ids', live - dropped + {k})
  {
    var live' := live - dropped + {k};
    forall id | id in ids' ensures exists i :: i in live' && r.calls[i].id == id {
      if id == r.calls[k].id {
        assert k in live';
      } else {
        var i := StoredFor(r, ids, live, id);
        assert i in live';
      }
    }
  }

  lemma InsertMirrors(r: Run, ids: Ids, live: set<nat>, k: nat, ids': Ids)
    requires Meets(r, ids, live, k) && Strict(r)
    requires Inserted(r.max, r.ttl, ids, r.calls[k].id, r.calls[k].now, ids')
    ensures Mirrors(r, ids', live - Dropped(r, live, k) + {k})
  {
    InsertedBounded(r.max, r.ttl, ids, r.calls[k].id, r.calls[k].now, ids');
    forall i | i in live ensures Keeps(r, ids', live, k, i) {
      InsertKeepsUndropped(r, ids, live, k, ids', i);
    }
    MirrorInsert(r, ids, live, Dropped(r, live, k), k, ids');
  }

  lemma LookupMirrors(r: Run, ids: Ids, live: set<nat>, k: nat, ids': Ids, found: bool)
    requires |r.results| == |r.calls| && k < |r.calls| && (forall j :: j in live ==> j < |r.calls|)
    requires Mirrors(r, ids, live) && "" !in ids && r.calls[k].Has?
    requires HasStep(r.ttl, ids, r.calls[k].id, r.calls[k].now, ids', found)
    ensures Mirrors(r, ids', live - Dropped(r, live, k))
  {
    var live' := live - Dropped(r, live, k);
    forall id | id in ids' ensures exists i :: i in live' && r.calls[i].id == id {
      var i := StoredFor(r, ids, live, id);
      assert i in live';
    }
  }

  lemma RefusalMirrors(r: Run, k: nat)
    requires |r.results| == |r.calls| && k < |r.calls| && r.calls[k].Add? && !r.Accepted(k)
    ensures Live(r, k + 1) == Live(r, k)
  {
    assert Dropped(r, Live(r, k), k) == {};
  }

  /** The store after n calls is the set of live calls. */
  ghost predicate Matches(r: Run, n: nat)
    requires |r.results| == |r.calls| && |r.states| == |r.calls| + 1 && n <= |r.calls|
  {
    Mirrors(r, r.states[n], Live(r, n))
  }

  lemma MatchesBy(r: Run, n: nat, live: set<nat>)
    requires |r.results| == |r.calls| && |r.states| == |r.calls| + 1 && n <= |r.calls| && live == Live(r, n)
    requires Mirrors(r, r.states[n], live)
    ensures Matches(r, n)
  {
  }

  lemma LiveAfterLookup(r: Run, k: nat, next: nat)
    requires |r.results| == |r.calls| && k < |r.calls| && next == k + 1 && r.calls[k].Has?
    ensures Live(r, next) == Live(r, k) - Dropped(r, Live(r, k), k)
  {
  }

  lemma LiveAfterInsert(r: Run, k: nat, next: nat)
    requires |r.results| == |r.calls| && k < |r.calls| && next == k + 1 && r.Accepted(k)
    ensures Live(r, next) == Live(r, k) - Dropped(r, Live(r, k), k) + {k}
  {
  }

  lemma LookupMatches(r: Run, k: nat, next: nat)
    requires r.Legal() && k < |r.calls| && next == k + 1 && Matches(r, k) && r.calls[k].Has?
    ensures Matches(r, next)
  {
    var live := Live(r, k);
    assert Step(r.max, r.ttl, r.states[k], r.calls[k], r.states[k + 1], r.results[k]);
    NeverEmptyId(r, k);
    LookupMirrors(r, r.states[k], live, k, r.states[next], r.results[k]);
    LiveAfterLookup(r, k, next);
    MatchesBy(r, next, live - Dropped(r, live, k));
  }

  lemma InsertionAt(r: Run, k: nat)
    requires r.Legal() && k < |r.calls| && Matches(r, k) && r.Accepted(k)
    ensures Meets(r, r.states[k], Live(r, k), k)
    ensures Inserted(r.max, r.ttl, r.states[k], r.calls[k].id, r.calls[k].now, r.states[k + 1])
  {
    assert Step(r.max, r.ttl, r.states[k], r.calls[k], r.states[k + 1], r.results[k]);
    StoreBounded(r, k);
  }

  lemma InsertMatches(r: Run, k: nat, next: nat)
    requires r.Legal() && Strict(r) && k < |r.calls| && next == k + 1 && Matches(r, k) && r.Accepted(k)
    ensures Matches(r, next)
  {
    var live := Live(r, k);
    InsertionAt(r, k);
    InsertMirrors(r, r.states[k], live, k, r.states[next]);
    LiveAfterInsert(r, k, next);
    MatchesBy(r, next, live - Dropped(r, live, k) + {k});
  }

  lemma RefusedUnchanged(r: Run, k: nat)
    requires r.Legal() && k < |r.calls| && r.calls[k].Add? && !r.Accepted(k)
    ensures r.states[k + 1] == r.states[k]
  {
    assert Step(r.max, r.ttl, r.states[k], r.calls[k], r.states[k + 1], r.results[k]);
  }

  lemma SameStoreMatches(r: Run, k: nat, next: nat)
    requires |r.results| == |r.calls| && |r.states| == |r.calls| + 1 && k <= |r.calls| && next <= |r.calls|
    requires Matches(r, k) && r.states[next] == r.states[k] && Live(r, next) == Live(r, k)
    ensures Matches(r, next)
  {
  }

  lemma RefusalMatches(r: Run, k: nat, next: nat)
    requires r.Legal() && k < |r.calls| && next == k + 1 && Matches(r, k) && r.calls[k].Add? && !r.Accepted(k)
    ensures Matches(r, next)
  {
    RefusedUnchanged(r, k);
    RefusalMirrors(r, k);
    SameStoreMatches(r, k, next);
  }

  lemma MatchesNext(r: Run, k: nat, next: nat)
    requires r.Legal() && Strict(r) && k < |r.calls| && next == k + 1 && Matches(r, k)
    ensures Matches(r, next)
  {
    if r.calls[k].Has? {
      LookupMatches(r, k, next);
    } else if r.Accepted(k) {
      InsertMatches(r, k, next);
    } else {
      RefusalMatches(r, k, next);
    }
  }

  lemma StartMatches(r: Run)
    requires r.Legal()
    ensures Matches(r, 0)
  {
  }

  /** Under a strictly increasing clock the store is always the set of live calls. */
  lemma {:induction false} StoreIsLive(r: Run, n: nat)
    requires r.Legal() && Strict(r) && n <= |r.calls|
    ensures Matches(r, n)
  {
    if n == 0 {
      StartMatches(r);
    } else {
      var k: nat :| k + 1 == n;
      StoreIsLive(r, k);
      MatchesNext(r, k, n);
    }
  }

  lemma NeverEmptyId(r: Run, n: nat)
    requires r.Legal() && n <= |r.calls|
    ensures "" !in r.states[n]
  {
    AlwaysExplained(r, n);
  }

  /**
    Refusal, exactly.  A named ID is refused if and only if an accepted call carried it and
    no call since has dropped it.  A look-up finds it exactly if moreover it has not expired.
   */
  lemma RefusedIff(r: Run, j: nat)
    requires r.Legal() && Strict(r) && j < |r.calls| && r.calls[j].id != ""
    ensures r.calls[j].Add? ==>
              (!r.results[j] <==> exists i :: i in Live(r, j) && r.calls[i].id == r.calls[j].id)
    ensures r.calls[j].Has? ==>
              (r.results[j] <==>
                 exists i :: i in Live(r, j) && r.calls[i].id == r.calls[j].id && r.calls[j].now - r.calls[i].now <= r.ttl)
  {
    StoreIsLive(r, j);
    assert Step(r.max, r.ttl, r.states[j], r.calls[j], r.states[j + 1], r.results[j]);
    if r.calls[j].id in r.states[j] {
      var i := StoredFor(r, r.states[j], Live(r, j), r.calls[j].id);
    }
  }
}
