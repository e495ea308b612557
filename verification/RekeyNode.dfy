/**
  The part of a peer's node that runs the rekey protocol: the connection table with
  its session keys, the table of pending ephemerals keyed by address, and the time
  of each connection's last rotation.  Every method is tied to the reaction that
  `RekeyProtocol` defines for one end of a connection.
 */
module RekeyNode {
  import opened Basics
  import opened RekeyProtocol

  type Addr = string

  /** Ten minutes, in seconds: the gate of the periodic rotation. */
  const REKEY_INTERVAL: int := 600

  /** What a node knows about one address, connected or not. */
  datatype AddrRecord = AddrRecord(
    conn: Option<Option<Bytes>>,
    slot: Option<PrivateKey>,
    last: Option<int>,
    written: Option<seq<Packet>>)

  /** The ten-minute gate: open when no rotation is known or the last one is older. */
  predicate Open(last: Option<int>, now: int) { last.None? || now - last.value > REKEY_INTERVAL }

  predicate GateOpen(r: AddrRecord, now: int) { Open(r.last, now) }

  /** A connection is rotated when its gate is open and its session is ready. */
  predicate Due(r: AddrRecord, now: int) {
    GateOpen(r, now) && r.conn.Some? && r.conn.value.Some? && r.written.Some?
  }

  /**
    The periodic rotation seen from one address.  The gate does not look at the slot; a
    missing ephemeral means that the random source failed.
   */
  function AfterSweep(s: Suite, identity: PrivateKey, r: AddrRecord, eph: Option<PrivateKey>, now: int): AddrRecord {
    if !Due(r, now) || eph.None? then r
    else
      var reaction := OnInitiate(s, End(identity, r.conn.value, r.slot), eph.value);
      AddrRecord(Some(reaction.end.key), reaction.end.slot, Some(now), Some(r.written.value + reaction.sends))
  }

  /** A ready connection without a rotation in the last ten minutes. */
  predicate Ready(r: AddrRecord, now: int) {
    && r.conn.Some? && r.conn.value.Some? && r.written.Some?
    && (r.last.Some? ==> now - r.last.value > 600)
  }

  /**
    What a sweep does: a ready connection gets the ephemeral into its slot, one more rekey
    packet written and its time noted, and keeps its key; any other record stays as it is.
   */
  lemma SweepFields(s: Suite, identity: PrivateKey, r: AddrRecord, eph: Option<PrivateKey>, now: int)
    ensures var r' := AfterSweep(s, identity, r, eph, now);
            if Ready(r, now) && eph.Some? then
              r' == AddrRecord(r.conn, eph, Some(now), Some(r.written.value + [Rekey(s.pub(eph.value))]))
            else r' == r
  {
  }

  // ---------------------------------------------------------------------------
  // Two rotations of one address are more than ten minutes apart.
  // ---------------------------------------------------------------------------

  /** What may happen to the record of one address: a sweep, or anything another handler does. */
  datatype RecordEvent = Sweep(eph: Option<PrivateKey>, now: int) | Elsewhere(now: int)

  /** Other handlers change the record at will, but the time of the last rotation only to the present. */
  ghost predicate RecordStep(s: Suite, identity: PrivateKey, r: AddrRecord, e: RecordEvent, r': AddrRecord) {
    match e
    case Sweep(eph, now) => r' == AfterSweep(s, identity, r, eph, now)
    case Elsewhere(now) => r'.last == r.last || r'.last == Some(now)
  }

  datatype RecordRun = RecordRun(states: seq<AddrRecord>, events: seq<RecordEvent>) {
    ghost predicate Legal(s: Suite, identity: PrivateKey) {
      && |states| == |events| + 1
      && (forall k {:trigger events[k]} :: 0 <= k < |events| ==>
            RecordStep(s, identity, states[k], events[k], states[k + 1]))
      && (forall i, j :: 0 <= i < j < |events| ==> events[i].now <= events[j].now)
    }

    /** Event k is a sweep that did something to the record. */
    predicate Rotated(k: int)
      requires |states| == |events| + 1
    {
      0 <= k < |events| && events[k].Sweep? && states[k + 1] != states[k]
    }
  }

  /** After a rotation the record remembers a time that is no earlier. */
  lemma {:induction false} RotationRemembered(s: Suite, identity: PrivateKey, run: RecordRun, i: nat, n: nat)
    requires run.Legal(s, identity) && run.Rotated(i) && i < n <= |run.events|
    ensures run.states[n].last.Some? && run.states[n].last.value >= run.events[i].now
  {
    var e := run.events[n - 1];
    assert RecordStep(s, identity, run.states[n - 1], e, run.states[n]);
    if n > i + 1 {
      RotationRemembered(s, identity, run, i, n - 1);
    }
    if e.Sweep? {
      SweepFields(s, identity, run.states[n - 1], e.eph, e.now);
    }
  }

  /** Over every sequence of sweeps and other events, rotations keep their distance. */
  lemma RotationsApart(s: Suite, identity: PrivateKey, run: RecordRun, i: nat, j: nat)
    requires run.Legal(s, identity) && i < j && run.Rotated(i) && run.Rotated(j)
    ensures run.events[j].now - run.events[i].now > 600
  {
    RotationRemembered(s, identity, run, i, j);
    var e := run.events[j];
    assert RecordStep(s, identity, run.states[j], e, run.states[j + 1]);
    SweepFields(s, identity, run.states[j], e.eph, e.now);
  }

  class Node {
    const suite: Suite
    const identity: PrivateKey
    /** Open connections; the key is missing until the hello arrived. */
    var conns: map<Addr, Option<Bytes>>
    /** Pending ephemerals; entries outlive their connection. */
    var slots: map<Addr, PrivateKey>
    var lastRekey: map<Addr, int>
    /** Everything written to each connection, oldest first. */
    var written: map<Addr, seq<Packet>>

    ghost predicate Valid()
      reads this
    {
      conns.Keys <= written.Keys
    }

    function View(addr: Addr): End
      reads this
      requires addr in conns
    {
      End(identity, conns[addr], Lookup(slots, addr))
    }

    function Record(addr: Addr): AddrRecord
      reads this
    {
      AddrRecord(Lookup(conns, addr), Lookup(slots, addr), Lookup(lastRekey, addr), Lookup(written, addr))
    }

    constructor (suite: Suite, identity: PrivateKey)
      ensures Valid() && conns == map[] && slots == map[] && lastRekey == map[] && written == map[]
      ensures this.suite == suite && this.identity == identity
    {
      this.suite := suite;
      this.identity := identity;
      conns, slots, lastRekey, written := map[], map[], map[], map[];
    }

    /** setupConn: registers the connection and writes the hello; a stale slot stays. */
    method SetupConn(addr: Addr)
      requires Valid()
      modifies this
      ensures Valid() && addr in conns
      ensures View(addr) == End(identity, None, old(Lookup(slots, addr)))
      ensures written[addr] == [Hello(suite.pub(identity))]
      ensures lastRekey == old(lastRekey) && slots == old(slots)
      ensures forall other :: other != addr ==> Record(other) == old(Record(other))
    {
      conns := conns[addr := None];
      written := written[addr := [Hello(suite.pub(identity))]];
    }

    /** removePeer: forgets the connection but not its pending ephemeral. */
    method RemovePeer(addr: Addr)
      requires Valid()
      modifies this
      ensures Valid() && conns == old(conns) - {addr}
      ensures slots == old(slots) && lastRekey == old(lastRekey) && written == old(written)
    {
      conns := conns - {addr};
    }

    method Write(addr: Addr, packets: seq<Packet>)
      requires Valid() && addr in conns
      modifies this`written
      ensures Valid() && written == old(written)[addr := old(written)[addr] + packets]
    {
      written := written[addr := written[addr] + packets];
    }

    /**
      The hello case: `theirs` is missing when the public key did not parse, `derives` says
      whether ECDH succeeds.  A JID that is not the key's fingerprint closes the connection.
     */
    method HandleHello(addr: Addr, theirs: Option<PublicKey>, matchesJid: bool, derives: bool) returns (closed: bool)
      requires Valid() && addr in conns
      modifies this
      ensures Valid() && addr in conns
      ensures closed <==> theirs.Some? && !matchesJid
      ensures View(addr) ==
              if theirs.Some? && matchesJid && derives then OnHello(suite, old(View(addr)), theirs.value).end
              else old(View(addr))
      ensures slots == old(slots) && lastRekey == old(lastRekey) && written == old(written)
      ensures forall other :: other != addr ==> Record(other) == old(Record(other))
    {
      closed := false;
      if theirs.None? {
        return;
      }
      if !matchesJid {
        closed := true;
        return;
      }
      if !derives {
        return;
      }
      conns := conns[addr := Some(suite.kdf(suite.dh(identity, theirs.value)))];
    }

    /** initiateRekey; `eph` is missing when no key could be generated. */
    method InitiateRekey(addr: Addr, eph: Option<PrivateKey>) returns (ok: bool)
      requires Valid() && addr in conns
      modifies this
      ensures Valid() && conns == old(conns) && lastRekey == old(lastRekey)
      ensures ok <==> eph.Some? && conns[addr].Some?
      ensures eph.None? ==> Record(addr) == old(Record(addr))
      ensures eph.Some? ==>
                var r := OnInitiate(suite, old(View(addr)), eph.value);
                View(addr) == r.end && written[addr] == old(written[addr]) + r.sends
      ensures forall other :: other != addr ==> Record(other) == old(Record(other))
    {
      if eph.None? || conns[addr].None? {
        ok := false;
        return;
      }
      slots := slots[addr := eph.value];
      Write(addr, [Rekey(suite.pub(eph.value))]);
      ok := true;
    }

    /**
      The rekey case: `theirs` is missing when the received key did not parse, `eph` when none
      could be generated for an answer, and `agrees` says whether ECDH succeeds.
     */
    method HandleRekey(addr: Addr, theirs: Option<PublicKey>, eph: Option<PrivateKey>, agrees: bool, now: int)
      requires Valid() && addr in conns
      modifies this
      ensures Valid() && addr in conns
      ensures var e := old(View(addr));
              var failed := !agrees || (e.slot.None? && eph.None?);
              if theirs.None? || e.key.None? then Record(addr) == old(Record(addr))
              else if failed then
                && View(addr) == OnRekeyFails(e).end == e.(slot := None) && written[addr] == old(written[addr])
                && Lookup(lastRekey, addr) == old(Lookup(lastRekey, addr))
              else
                var r := OnRekey(suite, e, theirs.value, if eph.Some? then eph.value else 0);
                && View(addr) == r.end && written[addr] == old(written[addr]) + r.sends
                && Lookup(lastRekey, addr) == Some(now)
      ensures forall other :: other != addr ==> Record(other) == old(Record(other))
    {
      if theirs.None? || conns[addr].None? {
        return;
      }
      var oldKey := conns[addr].value;
      var hasSlot := addr in slots;
      var shared: Bytes;
      if hasSlot {
        var ourEphemeral := slots[addr];
        slots := slots - {addr};
        if !agrees {
          return;
        }
        shared := suite.dh(ourEphemeral, theirs.value);
      } else {
        if eph.None? || !agrees {
          return;
        }
        shared := suite.dh(eph.value, theirs.value);
        Write(addr, [Rekey(suite.pub(eph.value))]);
      }
      conns := conns[addr := Some(suite.mix(oldKey, shared))];
      lastRekey := lastRekey[addr := now];
    }

    method RotateIfDue(addr: Addr, now: int, eph: Option<PrivateKey>)
      requires Valid() && addr in conns
      modifies this
      ensures Valid() && conns == old(conns)
      ensures Record(addr) == AfterSweep(suite, identity, old(Record(addr)), eph, now)
      ensures if old(Ready(Record(addr), now)) && eph.Some? then
                && Lookup(slots, addr) == eph && Lookup(lastRekey, addr) == Some(now)
                && written[addr] == old(written[addr]) + [Rekey(suite.pub(eph.value))]
              else Record(addr) == old(Record(addr))
      ensures forall other :: other != addr ==> Record(other) == old(Record(other))
    {
      SweepFields(suite, identity, Record(addr), eph, now);
      if addr !in lastRekey || now - lastRekey[addr] > REKEY_INTERVAL {
        var ok := InitiateRekey(addr, eph);
        if ok {
          lastRekey := lastRekey[addr := now];
        } else {
          assert written[addr] == old(written[addr]);
        }
        assert eph.Some? ==> View(addr) == OnInitiate(suite, old(View(addr)), eph.value).end;
      }
    }

    /** maybeRekey: rotates exactly the connections that are due. */
    method MaybeRekey(now: int, ephemerals: Addr -> Option<PrivateKey>)
      requires Valid()
      modifies this
      ensures Valid() && conns == old(conns)
      ensures forall a :: Record(a) == AfterSweep(suite, identity, old(Record(a)), ephemerals(a), now)
      ensures forall a :: old(Ready(Record(a), now)) && ephemerals(a).Some? ==>
                && Lookup(slots, a) == ephemerals(a) && Lookup(lastRekey, a) == Some(now)
                && Lookup(written, a) == Some(old(Record(a)).written.value + [Rekey(suite.pub(ephemerals(a).value))])
      ensures forall a :: !(old(Ready(Record(a), now)) && ephemerals(a).Some?) ==> Record(a) == old(Record(a))
    {
      var todo := conns.Keys;
      while todo != {}
        invariant Valid() && conns == old(conns) && todo <= conns.Keys
        invariant forall a :: a in todo ==> Record(a) == old(Record(a))
        invariant forall a :: a !in todo ==>
                    Record(a) == AfterSweep(suite, identity, old(Record(a)), ephemerals(a), now)
        decreases |todo|
      {
        var a :| a in todo;
        todo := todo - {a};
        RotateIfDue(a, now, ephemerals(a));
      }
      forall a
        ensures if old(Ready(Record(a), now)) && ephemerals(a).Some? then
                  Record(a) == AddrRecord(old(Record(a)).conn, ephemerals(a), Some(now),
                                          Some(old(Record(a)).written.value + [Rekey(suite.pub(ephemerals(a).value))]))
                else Record(a) == old(Record(a))
      {
        SweepFields(suite, identity, old(Record(a)), ephemerals(a), now);
      }
    }
  }
}
