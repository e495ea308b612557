/**
  The session rekey protocol between two connected peers.

  Each end keeps a session key and at most one pending ephemeral, its "slot".
  An end that rotates its key stores a fresh ephemeral in the slot and sends the
  public half.  An end that receives a public half either consumes its slot or,
  when the slot is empty, answers with a one-time ephemeral of its own.  Both
  ends then mix the Diffie-Hellman secret into the session key.

  The handlers below are values-to-values; `RekeyNode` refines them by methods.
 */
module RekeyProtocol {
  import opened Basics

  type PrivateKey = nat
  type PublicKey = nat
  type Bytes = seq<nat>

  /** The cryptographic primitives: X25519, the hello key derivation and MixKeys. */
  datatype Suite = Suite(
    pub: PrivateKey -> PublicKey,
    dh: (PrivateKey, PublicKey) -> Bytes,
    kdf: Bytes -> Bytes,
    mix: (Bytes, Bytes) -> Bytes)
  {
    ghost predicate Symmetric() {
      forall a: PrivateKey, b: PrivateKey :: dh(a, pub(b)) == dh(b, pub(a))
    }

    /**
      No collisions: MixKeys is injective, its domain separator keeps it apart from
      the hello derivation, and a secret names the two ephemerals it came from.
     */
    ghost predicate CollisionFree() {
      && (forall d: Bytes, k: Bytes, s: Bytes :: kdf(d) != mix(k, s))
      && (forall k: Bytes, s: Bytes, k': Bytes, s': Bytes ::
            mix(k, s) == mix(k', s') ==> k == k' && s == s')
      && (forall x: PrivateKey, y: PrivateKey, z: PrivateKey, e: PrivateKey ::
            dh(x, pub(y)) == dh(z, pub(e)) ==> e == x || e == y)
    }
  }

  datatype Packet = Hello(identity: PublicKey) | Rekey(ephemeral: PublicKey)

  /** One end's view of the connection. */
  datatype End = End(identity: PrivateKey, key: Option<Bytes>, slot: Option<PrivateKey>)

  /** The new view of an end, and what it sends to its peer. */
  datatype Reaction = Reaction(end: End, sends: seq<Packet>)

  /** initiateRekey: refused before the handshake; otherwise the slot is overwritten unchecked. */
  function OnInitiate(s: Suite, e: End, eph: PrivateKey): Reaction {
    if e.key.None? then Reaction(e, [])
    else Reaction(e.(slot := Some(eph)), [Rekey(s.pub(eph))])
  }

  /** The hello case of handleMessage: the session key is derived again, whatever it was. */
  function OnHello(s: Suite, e: End, theirs: PublicKey): Reaction {
    Reaction(e.(key := Some(s.kdf(s.dh(e.identity, theirs)))), [])
  }

  /** The rekey case of handleMessage. */
  function OnRekey(s: Suite, e: End, theirs: PublicKey, eph: PrivateKey): Reaction {
    if e.key.None? then Reaction(e, [])
    else if e.slot.Some? then
      Reaction(e.(key := Some(s.mix(e.key.value, s.dh(e.slot.value, theirs))), slot := None), [])
    else
      Reaction(e.(key := Some(s.mix(e.key.value, s.dh(eph, theirs)))), [Rekey(s.pub(eph))])
  }

  /** A rekey packet whose secret cannot be computed: a slot taken for it is gone. */
  function OnRekeyFails(e: End): Reaction {
    if e.key.None? then Reaction(e, []) else Reaction(e.(slot := None), [])
  }

  // ---------------------------------------------------------------------------
  // The two ends, their FIFO channels and what they did so far.
  // ---------------------------------------------------------------------------

  /**
    One half of the system: an end and the packets it sent that are still in
    flight.  The remaining fields record its history: every ephemeral it sent,
    the ephemeral it used for each rekey packet it processed, how often it
    initiated, and how many of those initiations overwrote a slot that was filled on
    this connection.
   */
  datatype Half = Half(
    end: End,
    out: seq<Packet>,
    sent: seq<PrivateKey>,
    used: seq<PrivateKey>,
    initiated: nat,
    overwritten: nat)
  {
    function Pending(): nat { if end.slot.Some? then 1 else 0 }

    /** What initiating now would overwrite; a slot from before the connection does not count. */
    function AtRisk(): nat { if sent == [] then 0 else Pending() }
  }

  datatype World = World(a: Half, b: Half) {
    function Overwrites(): nat { a.overwritten + b.overwritten }
    function Initiations(): nat { a.initiated + b.initiated }
    function InFlight(): nat { |a.out| + |b.out| }
    predicate Quiet() { a.out == [] && b.out == [] }
    function Swap(): World { World(b, a) }
  }

  datatype Side = A | B

  /** `eph` is the ephemeral the random source would yield to this step. */
  datatype Step = Initiate(side: Side, eph: PrivateKey) | Deliver(side: Side, eph: PrivateKey)

  function InitiateAt(s: Suite, me: Half, eph: PrivateKey): Half {
    if me.end.key.None? then me
    else
      var r := OnInitiate(s, me.end, eph);
      me.(end := r.end, out := me.out + r.sends, sent := me.sent + [eph],
          initiated := me.initiated + 1, overwritten := me.overwritten + me.AtRisk())
  }

  /** The peer's oldest packet reaches `w.a`. */
  function DeliverToA(s: Suite, w: World, eph: PrivateKey): World {
    if w.b.out == [] then w
    else
      var b := w.b.(out := w.b.out[1..]);
      match w.b.out[0]
      case Hello(theirs) => World(w.a.(end := OnHello(s, w.a.end, theirs).end), b)
      case Rekey(theirs) =>
        var r := OnRekey(s, w.a.end, theirs, eph);
        if w.a.end.key.None? then World(w.a.(end := r.end), b)
        else if w.a.end.slot.Some? then
          World(w.a.(end := r.end, out := w.a.out + r.sends, used := w.a.used + [w.a.end.slot.value]), b)
        else
          World(w.a.(end := r.end, out := w.a.out + r.sends,
                     used := w.a.used + [eph], sent := w.a.sent + [eph]), b)
  }

  function Next(s: Suite, w: World, step: Step): World {
    match step
    case Initiate(A, eph) => w.(a := InitiateAt(s, w.a, eph))
    case Initiate(B, eph) => w.(b := InitiateAt(s, w.b, eph))
    case Deliver(A, eph) => DeliverToA(s, w, eph)
    case Deliver(B, eph) => DeliverToA(s, w.Swap(), eph).Swap()
  }

  function Run(s: Suite, w: World, steps: seq<Step>): World
    decreases |steps|
  {
    if steps == [] then w else Run(s, Next(s, w, steps[0]), steps[1..])
  }

  /** A half right after setupConn: only the hello is in flight; the slot may be stale. */
  function Opened(s: Suite, identity: PrivateKey, slot: Option<PrivateKey>): Half {
    Half(End(identity, None, slot), [Hello(s.pub(identity))], [], [], 0, 0)
  }

  function Start(s: Suite, idA: PrivateKey, idB: PrivateKey): World {
    World(Opened(s, idA, None), Opened(s, idB, None))
  }

  // ---------------------------------------------------------------------------
  // The inductive invariant, stated for one half against the other.
  // ---------------------------------------------------------------------------

  function PubsOf(s: Suite, keys: seq<PrivateKey>): seq<Packet> {
    seq(|keys|, i requires 0 <= i < |keys| => Rekey(s.pub(keys[i])))
  }

  /** The session key after mixing in the secrets of mine[i] with theirs[i], in order. */
  function Chain(s: Suite, base: Bytes, mine: seq<PrivateKey>, theirs: seq<PrivateKey>): Bytes
    requires |mine| <= |theirs|
    decreases |mine|
  {
    if mine == [] then base
    else
      var n := |mine| - 1;
      s.mix(Chain(s, base, mine[..n], theirs), s.dh(mine[n], s.pub(theirs[n])))
  }

  function BaseKey(s: Suite, me: Half, peer: Half): Bytes {
    s.kdf(s.dh(me.end.identity, s.pub(peer.end.identity)))
  }

  function HelloInFlight(s: Suite, me: Half, peer: Half): seq<Packet> {
    if peer.end.key.None? then [Hello(s.pub(me.end.identity))] else []
  }

  /** How many ephemerals a half sent, used, still holds and lost. */
  ghost predicate Counted(me: Half, peer: Half) {
    && |me.used| <= |peer.sent|
    && |me.sent| == |me.used| + me.Pending() + me.overwritten
    && (me.end.slot.Some? ==> me.sent != [] && me.end.slot.value == me.sent[|me.sent| - 1])
    && (me.end.key.None? ==> me.sent == [] && me.used == [] && me.initiated == 0)
    && (me.overwritten == 0 ==> me.used == me.sent[..|me.used|])
  }

  /** The channel holds what `me` sent and `peer` did not process yet, in order. */
  ghost predicate Fifo(s: Suite, me: Half, peer: Half) {
    && |peer.used| <= |me.sent|
    && me.out == HelloInFlight(s, me, peer) + PubsOf(s, me.sent[|peer.used|..])
  }

  ghost predicate Keyed(s: Suite, me: Half, peer: Half) {
    && |me.used| <= |peer.sent|
    && (me.end.key.Some? ==> me.end.key.value == Chain(s, BaseKey(s, me, peer), me.used, peer.sent))
  }

  ghost predicate Linked(s: Suite, me: Half, peer: Half) {
    Counted(me, peer) && Fifo(s, me, peer) && Keyed(s, me, peer)
  }

  ghost predicate Inv(s: Suite, w: World) {
    Linked(s, w.a, w.b) && Linked(s, w.b, w.a)
  }

  lemma {:induction false} ChainIgnoresTail(
    s: Suite, base: Bytes, mine: seq<PrivateKey>, theirs: seq<PrivateKey>, more: seq<PrivateKey>)
    requires |mine| <= |theirs|
    ensures Chain(s, base, mine, theirs) == Chain(s, base, mine, theirs + more)
    decreases |mine|
  {
    if mine != [] {
      ChainIgnoresTail(s, base, mine[..|mine| - 1], theirs, more);
    }
  }

  lemma InitiateKeepsLinks(s: Suite, me: Half, peer: Half, eph: PrivateKey)
    requires Linked(s, me, peer) && Linked(s, peer, me)
    ensures Linked(s, InitiateAt(s, me, eph), peer) && Linked(s, peer, InitiateAt(s, me, eph))
  {
    if me.end.key.Some? {
      InitiateKeepsOwn(s, me, peer, eph);
      InitiateKeepsPeer(s, me, peer, eph);
    }
  }

  lemma InitiateKeepsOwn(s: Suite, me: Half, peer: Half, eph: PrivateKey)
    requires Linked(s, me, peer) && me.end.key.Some?
    ensures Linked(s, InitiateAt(s, me, eph), peer)
  {
    var me' := InitiateAt(s, me, eph);
    assert me'.sent[|peer.used|..] == me.sent[|peer.used|..] + [eph];
    assert me'.sent[..|me.used|] == me.sent[..|me.used|];
    assert Counted(me', peer) && Fifo(s, me', peer) && Keyed(s, me', peer);
  }

  lemma InitiateKeepsPeer(s: Suite, me: Half, peer: Half, eph: PrivateKey)
    requires Linked(s, me, peer) && Linked(s, peer, me) && me.end.key.Some?
    ensures Linked(s, peer, InitiateAt(s, me, eph))
  {
    var me' := InitiateAt(s, me, eph);
    ChainIgnoresTail(s, BaseKey(s, peer, me), peer.used, me.sent, [eph]);
    assert Counted(peer, me') && Fifo(s, peer, me') && Keyed(s, peer, me');
  }

  lemma DeliverHelloKeeps(s: Suite, w: World, eph: PrivateKey)
    requires Inv(s, w) && w.b.out != [] && w.b.out[0].Hello?
    ensures Inv(s, DeliverToA(s, w, eph))
  {
    var w' := DeliverToA(s, w, eph);
    assert w.a.end.key.None?;
    assert w'.b.out == PubsOf(s, w.b.sent[0..]);
  }

  /** The oldest rekey packet is the first ephemeral of the peer not yet paired. */
  lemma FirstInFlight(s: Suite, w: World)
    requires Inv(s, w) && w.b.out != [] && w.b.out[0].Rekey?
    ensures w.a.end.key.Some?
    ensures |w.a.used| < |w.b.sent|
    ensures w.b.out[0] == Rekey(s.pub(w.b.sent[|w.a.used|]))
    ensures w.b.out[1..] == PubsOf(s, w.b.sent[|w.a.used| + 1..])
  {
  }

  lemma DeliverRekeyToSlot(s: Suite, w: World, eph: PrivateKey)
    requires Inv(s, w) && w.b.out != [] && w.b.out[0].Rekey? && w.a.end.slot.Some?
    ensures Inv(s, DeliverToA(s, w, eph))
    ensures DeliverToA(s, w, eph).a.used == w.a.used + [w.a.end.slot.value]
  {
    FirstInFlight(s, w);
    var w' := DeliverToA(s, w, eph);
    assert w'.a.used[..|w.a.used|] == w.a.used;
    assert Counted(w'.a, w'.b) && Fifo(s, w'.a, w'.b) && Keyed(s, w'.a, w'.b);
    assert Counted(w'.b, w'.a) && Fifo(s, w'.b, w'.a) && Keyed(s, w'.b, w'.a);
  }

  lemma DeliverRekeyNoSlot(s: Suite, w: World, eph: PrivateKey)
    requires Inv(s, w) && w.b.out != [] && w.b.out[0].Rekey? && w.a.end.slot.None?
    ensures Inv(s, DeliverToA(s, w, eph))
    ensures DeliverToA(s, w, eph).a.used == w.a.used + [eph]
  {
    FirstInFlight(s, w);
    var w' := DeliverToA(s, w, eph);
    AnswerKeepsReceiver(s, w, w', eph);
    AnswerKeepsSender(s, w, w', eph);
  }

  /** What an answer to a rekey packet does to the two halves. */
  ghost predicate Answered(s: Suite, w: World, w': World, eph: PrivateKey) {
    && w.a.end.key.Some? && w.a.end.slot.None? && |w.a.used| < |w.b.sent|
    && w'.a == w.a.(
         end := w.a.end.(key := Some(s.mix(w.a.end.key.value, s.dh(eph, s.pub(w.b.sent[|w.a.used|]))))),
         out := w.a.out + [Rekey(s.pub(eph))], sent := w.a.sent + [eph], used := w.a.used + [eph])
    && w'.b == w.b.(out := PubsOf(s, w.b.sent[|w.a.used| + 1..]))
  }

  lemma AnswerKeepsReceiver(s: Suite, w: World, w': World, eph: PrivateKey)
    requires Inv(s, w) && Answered(s, w, w', eph)
    ensures Linked(s, w'.a, w'.b)
  {
    assert w'.a.used[..|w.a.used|] == w.a.used;
    assert w'.a.sent[|w.b.used|..] == w.a.sent[|w.b.used|..] + [eph];
    assert Counted(w'.a, w'.b) && Fifo(s, w'.a, w'.b) && Keyed(s, w'.a, w'.b);
  }

  lemma AnswerKeepsSender(s: Suite, w: World, w': World, eph: PrivateKey)
    requires Inv(s, w) && Answered(s, w, w', eph)
    ensures Linked(s, w'.b, w'.a)
  {
    ChainIgnoresTail(s, BaseKey(s, w.b, w.a), w.b.used, w.a.sent, [eph]);
    assert Counted(w'.b, w'.a) && Fifo(s, w'.b, w'.a) && Keyed(s, w'.b, w'.a);
  }

  /** What a step never takes back. */
  ghost predicate Extends(me: Half, me': Half) {
    && me.sent <= me'.sent && me.used <= me'.used
    && me.overwritten <= me'.overwritten && me.initiated <= me'.initiated
    && me.end.identity == me'.end.identity
  }

  lemma DeliverKeeps(s: Suite, w: World, eph: PrivateKey)
    requires Inv(s, w)
    ensures Inv(s, DeliverToA(s, w, eph))
    ensures Extends(w.a, DeliverToA(s, w, eph).a) && Extends(w.b, DeliverToA(s, w, eph).b)
  {
    if w.b.out != [] {
      if w.b.out[0].Hello? {
        DeliverHelloKeeps(s, w, eph);
      } else if w.a.end.slot.Some? {
        DeliverRekeyToSlot(s, w, eph);
      } else {
        DeliverRekeyNoSlot(s, w, eph);
      }
    }
  }

  lemma NextKeepsInv(s: Suite, w: World, step: Step)
    requires Inv(s, w)
    ensures Inv(s, Next(s, w, step))
    ensures Extends(w.a, Next(s, w, step).a) && Extends(w.b, Next(s, w, step).b)
  {
    match step
    case Initiate(A, eph) => InitiateKeepsLinks(s, w.a, w.b, eph);
    case Initiate(B, eph) => InitiateKeepsLinks(s, w.b, w.a, eph);
    case Deliver(A, eph) => DeliverKeeps(s, w, eph);
    case Deliver(B, eph) => DeliverKeeps(s, w.Swap(), eph);
  }

  lemma {:induction false} RunKeepsInv(s: Suite, w: World, steps: seq<Step>)
    requires Inv(s, w)
    ensures Inv(s, Run(s, w, steps))
    ensures Extends(w.a, Run(s, w, steps).a) && Extends(w.b, Run(s, w, steps).b)
    decreases |steps|
  {
    if steps != [] {
      NextKeepsInv(s, w, steps[0]);
      RunKeepsInv(s, Next(s, w, steps[0]), steps[1..]);
    }
  }

  lemma StartInv(s: Suite, idA: PrivateKey, idB: PrivateKey)
    ensures Inv(s, Start(s, idA, idB))
  {
  }

  ghost predicate Reachable(s: Suite, w: World) {
    exists idA: PrivateKey, idB: PrivateKey, steps: seq<Step> :: w == Run(s, Start(s, idA, idB), steps)
  }

  lemma ReachableInv(s: Suite, w: World)
    requires Reachable(s, w)
    ensures Inv(s, w)
  {
    var idA: PrivateKey, idB: PrivateKey, steps: seq<Step> :| w == Run(s, Start(s, idA, idB), steps);
    StartInv(s, idA, idB);
    RunKeepsInv(s, Start(s, idA, idB), steps);
  }

  // ---------------------------------------------------------------------------
  // Agreement.
  // ---------------------------------------------------------------------------

  lemma {:induction false} ChainSymmetric(
    s: Suite, base: Bytes, mine: seq<PrivateKey>, theirs: seq<PrivateKey>)
    requires s.Symmetric()
    requires |mine| == |theirs|
    ensures Chain(s, base, mine, theirs) == Chain(s, base, theirs, mine)
  {
    if mine != [] {
      var n := |mine| - 1;
      ChainSymmetric(s, base, mine[..n], theirs[..n]);
      ChainIgnoresTail(s, base, mine[..n], theirs[..n], theirs[n..]);
      ChainIgnoresTail(s, base, theirs[..n], mine[..n], mine[n..]);
      assert theirs[..n] + theirs[n..] == theirs && mine[..n] + mine[n..] == mine;
    }
  }

  /** `key` is what n rounds make of `base` when the i-th ephemerals are paired. */
  ghost predicate PairedKey(
    s: Suite, key: Option<Bytes>, base: Bytes, mine: seq<PrivateKey>, theirs: seq<PrivateKey>, n: nat)
  {
    && n <= |mine| && n <= |theirs|
    && key == Some(Chain(s, base, mine[..n], theirs[..n]))
  }

  lemma KeyIsPaired(s: Suite, me: Half, peer: Half)
    requires Linked(s, me, peer) && me.overwritten == 0 && me.end.key.Some?
    ensures PairedKey(s, me.end.key, BaseKey(s, me, peer), me.sent, peer.sent, |me.used|)
  {
    var n := |me.used|;
    ChainIgnoresTail(s, BaseKey(s, me, peer), me.used, peer.sent[..n], peer.sent[n..]);
    assert peer.sent[..n] + peer.sent[n..] == peer.sent;
  }

  lemma AgreeAcross(s: Suite, me: Half, peer: Half, me': Half, peer': Half)
    requires s.Symmetric()
    requires Linked(s, me, peer) && Linked(s, peer', me') && Extends(me, me') && Extends(peer, peer')
    requires me'.overwritten == peer'.overwritten == 0
    requires me.end.key.Some? && peer'.end.key.Some? && |me.used| == |peer'.used|
    ensures me.end.key == peer'.end.key
  {
    var n := |me.used|;
    var base := BaseKey(s, me, peer);
    assert base == BaseKey(s, peer', me');
    KeyIsPaired(s, me, peer);
    KeyIsPaired(s, peer', me');
    assert me.sent[..n] == me'.sent[..n] && peer.sent[..n] == peer'.sent[..n];
    ChainSymmetric(s, base, me'.sent[..n], peer'.sent[..n]);
  }

  /**
    Agreement.  Take any run without an overwritten slot and two moments in it.
    An end that processed n rekey packets by the first moment and its peer, once
    it too has processed n, hold the same key: the mix chain of the first n pairs
    of ephemerals, the i-th sent by one end with the i-th sent by the other.
   */
  lemma Agreement(s: Suite, w: World, more: seq<Step>)
    requires s.Symmetric()
    requires Reachable(s, w) && Run(s, w, more).Overwrites() == 0
    ensures w.a.end.key.Some? ==>
              PairedKey(s, w.a.end.key, BaseKey(s, w.a, w.b), w.a.sent, w.b.sent, |w.a.used|)
    ensures var w' := Run(s, w, more);
            && (w.a.end.key.Some? && w'.b.end.key.Some? && |w.a.used| == |w'.b.used| ==>
                  w.a.end.key == w'.b.end.key)
            && (w.b.end.key.Some? && w'.a.end.key.Some? && |w.b.used| == |w'.a.used| ==>
                  w.b.end.key == w'.a.end.key)
  {
    ReachableInv(s, w);
    RunKeepsInv(s, w, more);
    var w' := Run(s, w, more);
    if w.a.end.key.Some? {
      KeyIsPaired(s, w.a, w.b);
      if w'.b.end.key.Some? && |w.a.used| == |w'.b.used| {
        AgreeAcross(s, w.a, w.b, w'.a, w'.b);
      }
    }
    if w.b.end.key.Some? && w'.a.end.key.Some? && |w.b.used| == |w'.a.used| {
      AgreeAcross(s, w.b, w.a, w'.b, w'.a);
    }
  }

  /** The ends are never more than one round apart. */
  lemma RoundsWithinOne(s: Suite, w: World)
    requires Reachable(s, w) && w.Overwrites() == 0
    ensures |w.a.used| <= |w.b.used| + 1 && |w.b.used| <= |w.a.used| + 1
  {
    ReachableInv(s, w);
  }

  // ---------------------------------------------------------------------------
  // Quiescence.
  // ---------------------------------------------------------------------------

  function HellosInFlight(w: World): nat {
    (if w.a.end.key.None? then 1 else 0) + (if w.b.end.key.None? then 1 else 0)
  }

  /**
    Conservation: apart from hellos, every run has exactly as many packets in
    flight as there are pending slots and overwritten slots together.
   */
  lemma Conservation(s: Suite, w: World)
    requires Reachable(s, w)
    ensures w.InFlight() == HellosInFlight(w) + w.a.Pending() + w.b.Pending() + w.Overwrites()
  {
    ReachableInv(s, w);
  }

  function Max(x: nat, y: nat): nat { if x < y then y else x }

  function Remaining(w: World): int {
    HellosInFlight(w) + 2 * Max(|w.a.sent|, |w.b.sent|) - |w.a.used| - |w.b.used|
  }

  lemma DeliveryDecreases(s: Suite, w: World, eph: PrivateKey)
    requires Inv(s, w) && w.Overwrites() == 0 && w.b.out != []
    ensures Remaining(DeliverToA(s, w, eph)) < Remaining(w)
    ensures Max(|DeliverToA(s, w, eph).a.sent|, |w.b.sent|) == Max(|w.a.sent|, |w.b.sent|)
    ensures DeliverToA(s, w, eph).Overwrites() == 0 && DeliverToA(s, w, eph).Initiations() == w.Initiations()
    ensures DeliverToA(s, w, eph).b.sent == w.b.sent
  {
    if w.b.out[0].Rekey? {
      FirstInFlight(s, w);
    } else {
      assert w.a.end.key.None?;
    }
  }

  predicate Enabled(w: World, step: Step) {
    step.Deliver? && (if step.side == A then w.b.out else w.a.out) != []
  }

  lemma SwapRemaining(w: World)
    ensures Remaining(w.Swap()) == Remaining(w)
  {
  }

  /** Every enabled delivery brings the exchange closer to its end. */
  lemma DeliverStepDecreases(s: Suite, w: World, step: Step)
    requires Inv(s, w) && w.Overwrites() == 0 && Enabled(w, step)
    ensures Remaining(Next(s, w, step)) < Remaining(w)
    ensures Max(|Next(s, w, step).a.sent|, |Next(s, w, step).b.sent|) == Max(|w.a.sent|, |w.b.sent|)
    ensures Next(s, w, step).Overwrites() == 0 && Next(s, w, step).Initiations() == w.Initiations()
  {
    if step.side == A {
      DeliveryDecreases(s, w, step.eph);
    } else {
      DeliveryDecreases(s, w.Swap(), step.eph);
      SwapRemaining(w);
      SwapRemaining(Next(s, w, step));
    }
  }

  /** Unless a slot was overwritten, no end sent more ephemerals than there were initiations. */
  ghost predicate SentBounded(w: World) {
    w.Overwrites() == 0 ==> Max(|w.a.sent|, |w.b.sent|) <= w.Initiations()
  }

  lemma InitiateKeepsBound(s: Suite, w: World, step: Step)
    requires SentBounded(w) && step.Initiate?
    ensures SentBounded(Next(s, w, step))
  {
  }

  lemma IdleDelivery(s: Suite, w: World, step: Step)
    requires step.Deliver? && !Enabled(w, step)
    ensures Next(s, w, step) == w
  {
    assert w.Swap().Swap() == w;
  }

  lemma DeliverKeepsOverwrites(s: Suite, w: World, step: Step)
    requires step.Deliver?
    ensures Next(s, w, step).Overwrites() == w.Overwrites()
  {
  }

  lemma DeliverKeepsBound(s: Suite, w: World, step: Step)
    requires Inv(s, w) && SentBounded(w) && step.Deliver?
    ensures SentBounded(Next(s, w, step))
  {
    DeliverKeepsOverwrites(s, w, step);
    if !Enabled(w, step) {
      IdleDelivery(s, w, step);
    } else if w.Overwrites() == 0 {
      DeliverStepDecreases(s, w, step);
    }
  }

  lemma InitiationBoundStep(s: Suite, w: World, step: Step)
    requires Inv(s, w) && SentBounded(w)
    ensures SentBounded(Next(s, w, step))
  {
    if step.Deliver? {
      DeliverKeepsBound(s, w, step);
    } else {
      InitiateKeepsBound(s, w, step);
    }
  }

  lemma {:induction false} InitiationBoundRun(s: Suite, w: World, steps: seq<Step>)
    requires Inv(s, w) && SentBounded(w)
    ensures SentBounded(Run(s, w, steps))
    decreases |steps|
  {
    if steps != [] {
      InitiationBoundStep(s, w, steps[0]);
      NextKeepsInv(s, w, steps[0]);
      InitiationBoundRun(s, Next(s, w, steps[0]), steps[1..]);
    }
  }

  /** No ping-pong: a run never sends more than two rekey packets per initiation. */
  lemma MessagesBounded(s: Suite, w: World)
    requires Reachable(s, w) && w.Overwrites() == 0
    ensures |w.a.sent| + |w.b.sent| <= 2 * w.Initiations()
  {
    var idA: PrivateKey, idB: PrivateKey, steps: seq<Step> :| w == Run(s, Start(s, idA, idB), steps);
    StartInv(s, idA, idB);
    InitiationBoundRun(s, Start(s, idA, idB), steps);
  }

  /** Nothing in flight means the exchange is over: no slot is left and the keys agree. */
  lemma QuietMeansAgreed(s: Suite, w: World)
    requires s.Symmetric()
    requires Reachable(s, w) && w.Quiet()
    ensures w.a.end.slot.None? && w.b.end.slot.None? && w.Overwrites() == 0
    ensures |w.a.used| == |w.b.used| == |w.a.sent| == |w.b.sent|
    ensures w.a.end.key.Some? && w.a.end.key == w.b.end.key
  {
    Conservation(s, w);
    ReachableInv(s, w);
    Agreement(s, w, []);
  }

  predicate AllDeliver(steps: seq<Step>) {
    forall i :: 0 <= i < |steps| ==> steps[i].Deliver?
  }

  lemma RunCons(s: Suite, w: World, step: Step, rest: seq<Step>)
    ensures Run(s, w, [step] + rest) == Run(s, Next(s, w, step), rest)
  {
  }

  lemma RemainingBounds(s: Suite, w: World)
    requires Inv(s, w)
    ensures 0 <= Remaining(w)
  {
  }

  function SomeDelivery(w: World): (step: Step)
    requires !w.Quiet()
    ensures Enabled(w, step)
  {
    if w.b.out != [] then Deliver(A, 0) else Deliver(B, 0)
  }

  lemma DrainOne(s: Suite, w: World, step: Step) returns (w': World)
    requires Inv(s, w) && w.Overwrites() == 0 && Enabled(w, step)
    ensures w' == Next(s, w, step) && Inv(s, w') && w'.Overwrites() == 0
    ensures 0 <= Remaining(w') < Remaining(w)
  {
    w' := Next(s, w, step);
    DeliverStepDecreases(s, w, step);
    NextKeepsInv(s, w, step);
    RemainingBounds(s, w');
  }

  /** At most `budget` deliveries, and then both channels are empty. */
  predicate Drains(s: Suite, w: World, steps: seq<Step>, budget: nat) {
    AllDeliver(steps) && |steps| <= budget && Run(s, w, steps).Quiet()
  }

  lemma DrainCons(s: Suite, w: World, step: Step, rest: seq<Step>, budget: nat)
    requires budget > 0 && step.Deliver? && Drains(s, Next(s, w, step), rest, budget - 1)
    ensures Drains(s, w, [step] + rest, budget)
  {
    RunCons(s, w, step, rest);
  }

  lemma {:induction false} Drain(s: Suite, w: World, budget: nat) returns (steps: seq<Step>)
    requires Inv(s, w) && w.Overwrites() == 0 && Remaining(w) <= budget
    ensures Drains(s, w, steps, budget)
    decreases budget
  {
    if w.Quiet() {
      steps := [];
    } else {
      var step := SomeDelivery(w);
      var w' := DrainOne(s, w, step);
      var rest := Drain(s, w', budget - 1);
      steps := [step] + rest;
      DrainCons(s, w, step, rest, budget);
    }
  }

  lemma {:induction false} RunConcat(s: Suite, w: World, first: seq<Step>, second: seq<Step>)
    ensures Run(s, Run(s, w, first), second) == Run(s, w, first + second)
    decreases |first|
  {
    if first == [] {
      assert first + second == second;
    } else {
      assert (first + second)[1..] == first[1..] + second;
      RunConcat(s, Next(s, w, first[0]), first[1..], second);
    }
  }

  lemma ReachableExtends(s: Suite, w: World, steps: seq<Step>)
    requires Reachable(s, w)
    ensures Reachable(s, Run(s, w, steps))
  {
    var idA: PrivateKey, idB: PrivateKey, before: seq<Step> :| w == Run(s, Start(s, idA, idB), before);
    RunConcat(s, Start(s, idA, idB), before, steps);
  }

  /**
    Settling, exactly.  From a reachable state some run of deliveries alone empties
    both channels if and only if no initiation ever overwrote a pending slot.  After
    one overwrite a packet is in flight for ever, whatever the ends do.
   */
  lemma SettlesIffNoOverwrite(s: Suite, w: World)
    requires Reachable(s, w)
    ensures (exists steps: seq<Step> :: AllDeliver(steps) && Run(s, w, steps).Quiet()) <==> w.Overwrites() == 0
    ensures w.Overwrites() > 0 ==> forall steps: seq<Step> :: !Run(s, w, steps).Quiet()
  {
    ReachableInv(s, w);
    if w.Overwrites() == 0 {
      RemainingBounds(s, w);
      var steps := Drain(s, w, Remaining(w));
      assert AllDeliver(steps) && Run(s, w, steps).Quiet();
    } else {
      forall steps: seq<Step> ensures !Run(s, w, steps).Quiet() {
        RunKeepsInv(s, w, steps);
        ReachableExtends(s, w, steps);
        Conservation(s, Run(s, w, steps));
      }
    }
  }

  /** Each step delivers a packet that is in flight. */
  predicate Deliveries(s: Suite, w: World, steps: seq<Step>)
    decreases |steps|
  {
    steps == [] || (Enabled(w, steps[0]) && Deliveries(s, Next(s, w, steps[0]), steps[1..]))
  }

  /** In whatever order packets arrive, the number of further deliveries is bounded. */
  lemma {:induction false} EveryDrainEnds(s: Suite, w: World, steps: seq<Step>)
    requires Inv(s, w) && w.Overwrites() == 0 && Deliveries(s, w, steps)
    ensures |steps| <= Remaining(w)
    decreases |steps|
  {
    RemainingBounds(s, w);
    if steps != [] {
      DeliverStepDecreases(s, w, steps[0]);
      NextKeepsInv(s, w, steps[0]);
      EveryDrainEnds(s, Next(s, w, steps[0]), steps[1..]);
    }
  }

  // ---------------------------------------------------------------------------
  // What goes wrong otherwise.
  // ---------------------------------------------------------------------------

  lemma {:induction false} ChainInjective(
    s: Suite, base: Bytes, mine: seq<PrivateKey>, theirs: seq<PrivateKey>,
    base': Bytes, mine': seq<PrivateKey>, theirs': seq<PrivateKey>, i: nat)
    requires s.CollisionFree()
    requires i < |mine| == |mine'| && |mine| <= |theirs| && |mine'| <= |theirs'|
    requires Chain(s, base, mine, theirs) == Chain(s, base', mine', theirs')
    ensures s.dh(mine[i], s.pub(theirs[i])) == s.dh(mine'[i], s.pub(theirs'[i]))
    decreases |mine|
  {
    var n := |mine| - 1;
    if i < n {
      ChainInjective(s, base, mine[..n], theirs, base', mine'[..n], theirs', i);
    }
  }

  /** Ephemeral `e`, sent by `w.a` as its i-th, is in no slot and in no round from i on. */
  ghost predicate Lost(w: World, e: PrivateKey, i: nat) {
    && i < |w.a.sent| && w.a.sent[i] == e
    && w.a.end.slot != Some(e)
    && (forall j :: i <= j < |w.a.used| ==> w.a.used[j] != e)
    && e !in w.b.sent
  }

  lemma LostStaysLost(s: Suite, w: World, step: Step, e: PrivateKey, i: nat)
    requires Inv(s, w) && Lost(w, e, i) && step.eph != e
    ensures Lost(Next(s, w, step), e, i)
  {
    match step
    case Initiate(_, _) =>
    case Deliver(A, eph) => LostAtReceiver(s, w, eph, e, i);
    case Deliver(B, eph) => LostAtSender(s, w, eph, e, i);
  }

  lemma LostAtReceiver(s: Suite, w: World, eph: PrivateKey, e: PrivateKey, i: nat)
    requires Inv(s, w) && Lost(w, e, i) && eph != e
    ensures Lost(DeliverToA(s, w, eph), e, i)
  {
    if w.b.out != [] && w.b.out[0].Rekey? {
      if w.a.end.slot.Some? {
        DeliverRekeyToSlot(s, w, eph);
      } else {
        DeliverRekeyNoSlot(s, w, eph);
      }
    }
  }

  lemma LostAtSender(s: Suite, w: World, eph: PrivateKey, e: PrivateKey, i: nat)
    requires Inv(s, w) && Lost(w, e, i) && eph != e
    ensures Lost(DeliverToA(s, w.Swap(), eph).Swap(), e, i)
  {
  }

  // ---------------------------------------------------------------------------
  // An overwritten slot splits the ends for good, and the split shows.
  // ---------------------------------------------------------------------------

  /** Neither end has sent this ephemeral yet. */
  predicate FreshFor(w: World, eph: PrivateKey) { eph !in w.a.sent && eph !in w.b.sent }

  predicate FreshRun(s: Suite, w: World, steps: seq<Step>)
    decreases |steps|
  {
    steps == [] || (FreshFor(w, steps[0].eph) && FreshRun(s, Next(s, w, steps[0]), steps[1..]))
  }

  function Flip(step: Step): Step { step.(side := if step.side == A then B else A) }

  /** The two ends play the same part. */
  lemma NextSwap(s: Suite, w: World, step: Step)
    ensures Next(s, w.Swap(), Flip(step)) == Next(s, w, step).Swap()
  {
    assert w.Swap().Swap() == w;
  }

  ghost predicate LostAnywhere(w: World, e: PrivateKey, i: nat) { Lost(w, e, i) || Lost(w.Swap(), e, i) }

  lemma StepKeepsLost(s: Suite, w: World, step: Step, e: PrivateKey, i: nat)
    requires Inv(s, w) && LostAnywhere(w, e, i) && FreshFor(w, step.eph)
    ensures LostAnywhere(Next(s, w, step), e, i)
  {
    if Lost(w, e, i) {
      LostStaysLost(s, w, step, e, i);
    } else {
      assert Inv(s, w.Swap());
      LostStaysLost(s, w.Swap(), Flip(step), e, i);
      NextSwap(s, w, step);
    }
  }

  lemma {:induction false} LostForGood(s: Suite, w: World, steps: seq<Step>, e: PrivateKey, i: nat)
    requires Inv(s, w) && LostAnywhere(w, e, i) && FreshRun(s, w, steps)
    ensures LostAnywhere(Run(s, w, steps), e, i)
    decreases |steps|
  {
    if steps != [] {
      StepKeepsLost(s, w, steps[0], e, i);
      NextKeepsInv(s, w, steps[0]);
      LostForGood(s, Next(s, w, steps[0]), steps[1..], e, i);
    }
  }

  lemma LostMeansSplit(s: Suite, w: World, e: PrivateKey, i: nat)
    requires s.CollisionFree()
    requires Inv(s, w) && Lost(w, e, i)
    requires |w.a.used| == |w.b.used| > i
    ensures w.a.end.key != w.b.end.key
  {
    assert w.a.end.key.Some? && w.b.end.key.Some?;
    if w.a.end.key == w.b.end.key {
      ChainInjective(s, BaseKey(s, w.a, w.b), w.a.used, w.b.sent,
                     BaseKey(s, w.b, w.a), w.b.used, w.a.sent, i);
    }
  }

  lemma LostAnywhereMeansSplit(s: Suite, w: World, e: PrivateKey, i: nat)
    requires s.CollisionFree()
    requires Inv(s, w) && LostAnywhere(w, e, i) && |w.a.used| == |w.b.used| > i
    ensures w.a.end.key != w.b.end.key
  {
    if Lost(w, e, i) {
      LostMeansSplit(s, w, e, i);
    } else {
      assert Inv(s, w.Swap());
      LostMeansSplit(s, w.Swap(), e, i);
    }
  }

  /** No ephemeral was sent by both ends. */
  ghost predicate Apart(w: World) { forall e :: e in w.a.sent ==> e !in w.b.sent }

  lemma StepKeepsApart(s: Suite, w: World, step: Step)
    requires Apart(w) && FreshFor(w, step.eph)
    ensures Apart(Next(s, w, step))
  {
  }

  /** Overwriting a slot loses the ephemeral it held. */
  lemma OverwriteLoses(s: Suite, w: World, eph: PrivateKey)
    requires Inv(s, w) && Apart(w) && FreshFor(w, eph) && InitiateAt(s, w.a, eph).overwritten > w.a.overwritten
    ensures w.a.sent != [] && Lost(World(InitiateAt(s, w.a, eph), w.b), w.a.end.slot.value, |w.a.sent| - 1)
  {
    assert w.a.end.slot.value in w.a.sent;
  }

  ghost predicate Wounded(w: World) { exists e: PrivateKey, i: nat :: LostAnywhere(w, e, i) }

  lemma OverwriteWounds(s: Suite, w: World, step: Step)
    requires Inv(s, w) && Apart(w) && FreshFor(w, step.eph) && Next(s, w, step).Overwrites() > w.Overwrites()
    ensures Wounded(Next(s, w, step))
  {
    assert step.Initiate?;
    if step.side == A {
      OverwriteLoses(s, w, step.eph);
      assert LostAnywhere(Next(s, w, step), w.a.end.slot.value, |w.a.sent| - 1);
    } else {
      assert Inv(s, w.Swap());
      OverwriteLoses(s, w.Swap(), step.eph);
      assert LostAnywhere(Next(s, w, step), w.b.end.slot.value, |w.b.sent| - 1);
    }
  }

  /** What holds throughout a run whose ephemerals are fresh. */
  ghost predicate FreshInv(s: Suite, w: World) {
    Inv(s, w) && Apart(w) && (w.Overwrites() > 0 ==> Wounded(w))
  }

  lemma WoundStays(s: Suite, w: World, step: Step)
    requires Inv(s, w) && FreshFor(w, step.eph) && Wounded(w)
    ensures Wounded(Next(s, w, step))
  {
    var e: PrivateKey, i: nat :| LostAnywhere(w, e, i);
    StepKeepsLost(s, w, step, e, i);
  }

  lemma FreshStepKeeps(s: Suite, w: World, step: Step)
    requires FreshInv(s, w) && FreshFor(w, step.eph)
    ensures FreshInv(s, Next(s, w, step))
  {
    NextKeepsInv(s, w, step);
    StepKeepsApart(s, w, step);
    if w.Overwrites() > 0 {
      WoundStays(s, w, step);
    } else if Next(s, w, step).Overwrites() > 0 {
      OverwriteWounds(s, w, step);
    }
  }

  lemma {:induction false} FreshRunKeeps(s: Suite, w: World, steps: seq<Step>)
    requires FreshInv(s, w) && FreshRun(s, w, steps)
    ensures FreshInv(s, Run(s, w, steps))
    decreases |steps|
  {
    if steps != [] {
      FreshStepKeeps(s, w, steps[0]);
      FreshRunKeeps(s, Next(s, w, steps[0]), steps[1..]);
    }
  }

  /** Reachable by a run in which every ephemeral is new. */
  ghost predicate FreshlyReachable(s: Suite, w: World) {
    exists idA: PrivateKey, idB: PrivateKey, steps: seq<Step> ::
      FreshRun(s, Start(s, idA, idB), steps) && w == Run(s, Start(s, idA, idB), steps)
  }

  lemma FreshlyReachableInv(s: Suite, w: World)
    requires FreshlyReachable(s, w)
    ensures FreshInv(s, w) && Reachable(s, w)
  {
    var idA: PrivateKey, idB: PrivateKey, steps: seq<Step> :|
      FreshRun(s, Start(s, idA, idB), steps) && w == Run(s, Start(s, idA, idB), steps);
    StartInv(s, idA, idB);
    FreshRunKeeps(s, Start(s, idA, idB), steps);
  }

  function MostSent(w: World): nat { Max(|w.a.sent|, |w.b.sent|) }

  /**
    An overwritten slot, of either end, splits the ends for good: in every continuation
    the two keys differ whenever both ends have processed equally many packets and at
    least as many as either had sent when the slot was lost.
   */
  lemma OverwriteSplitsForGood(s: Suite, w: World, more: seq<Step>)
    requires s.CollisionFree()
    requires FreshlyReachable(s, w) && w.Overwrites() > 0 && FreshRun(s, w, more)
    ensures var w' := Run(s, w, more);
            |w'.a.used| == |w'.b.used| >= MostSent(w) ==> w'.a.end.key != w'.b.end.key
  {
    FreshlyReachableInv(s, w);
    var e: PrivateKey, i: nat :| LostAnywhere(w, e, i);
    LostSplits(s, w, more, e, i);
  }

  lemma LostSplits(s: Suite, w: World, more: seq<Step>, e: PrivateKey, i: nat)
    requires s.CollisionFree() && Inv(s, w) && LostAnywhere(w, e, i) && FreshRun(s, w, more)
    ensures var w' := Run(s, w, more);
            |w'.a.used| == |w'.b.used| >= MostSent(w) ==> w'.a.end.key != w'.b.end.key
  {
    var w' := Run(s, w, more);
    LostForGood(s, w, more, e, i);
    RunKeepsInv(s, w, more);
    if |w'.a.used| == |w'.b.used| >= MostSent(w) {
      LostAnywhereMeansSplit(s, w', e, i);
    }
  }

  // ---------------------------------------------------------------------------
  // Such a moment can always be reached by deliveries alone.
  // ---------------------------------------------------------------------------

  /** An ephemeral larger than all of these. */
  function Above(keys: seq<PrivateKey>): (e: PrivateKey)
    ensures forall k :: k in keys ==> k < e
  {
    if keys == [] then 0
    else
      var rest, last := Above(keys[..|keys| - 1]), keys[|keys| - 1];
      assert keys == keys[..|keys| - 1] + [last];
      if last < rest then rest else last + 1
  }

  function NewEph(w: World): (e: PrivateKey)
    ensures FreshFor(w, e)
  {
    Max(Above(w.a.sent), Above(w.b.sent))
  }

  /** Both ends have a key and have processed the same number of packets, at least n. */
  predicate Level(w: World, n: nat) {
    w.a.end.key.Some? && w.b.end.key.Some? && |w.a.used| == |w.b.used| >= n
  }

  /** The end that should receive next: one without a key, the one behind, or the victim. */
  function Behind(w: World): Side {
    if w.a.end.key.None? then A
    else if w.b.end.key.None? then B
    else if |w.a.used| != |w.b.used| then (if |w.a.used| < |w.b.used| then A else B)
    else if w.a.overwritten > 0 then B else A
  }

  function ChaseStep(w: World): Step { Deliver(Behind(w), NewEph(w)) }

  /** How many deliveries are left until both ends are level at n or more. */
  function Distance(w: World, n: nat): int {
    HellosInFlight(w) + 2 * Max(n, Max(|w.a.used|, |w.b.used|)) - |w.a.used| - |w.b.used|
  }

  lemma OutLength(s: Suite, me: Half, peer: Half)
    requires Linked(s, me, peer) && Linked(s, peer, me)
    ensures |me.out| == (if peer.end.key.None? then 1 else 0) + |me.used| + me.Pending() + me.overwritten - |peer.used|
  {
  }

  lemma ChaseEnabled(s: Suite, w: World)
    requires Inv(s, w) && w.Overwrites() > 0
    ensures Enabled(w, ChaseStep(w))
  {
    OutLength(s, w.a, w.b);
    OutLength(s, w.b, w.a);
  }

  /** A delivery to an end without a key is its hello, and else a rekey packet it processes. */
  lemma DeliveryAdvances(s: Suite, w: World, eph: PrivateKey)
    requires Inv(s, w) && w.b.out != []
    ensures var w' := DeliverToA(s, w, eph);
            && w'.a.end.key.Some? && w'.b.end.key == w.b.end.key && w'.b.used == w.b.used
            && w'.Overwrites() == w.Overwrites()
            && |w'.a.used| == |w.a.used| + (if w.a.end.key.Some? then 1 else 0)
  {
    if w.b.out[0].Rekey? {
      FirstInFlight(s, w);
    } else {
      assert w.a.end.key.None?;
    }
  }

  /** What a delivery to `side` does to the counts. */
  ghost predicate Advanced(w: World, w': World, side: Side) {
    var a, b, a', b' := w.a, w.b, w'.a, w'.b;
    if side == A then
      && a'.end.key.Some? && b'.end.key == b.end.key && b'.used == b.used
      && |a'.used| == |a.used| + (if a.end.key.Some? then 1 else 0)
    else
      && b'.end.key.Some? && a'.end.key == a.end.key && a'.used == a.used
      && |b'.used| == |b.used| + (if b.end.key.Some? then 1 else 0)
  }

  lemma AdvanceShortens(w: World, w': World, n: nat)
    requires Advanced(w, w', Behind(w)) && !Level(w, n)
    ensures 0 <= Distance(w', n) < Distance(w, n)
  {
  }

  lemma ChaseAdvances(s: Suite, w: World)
    requires Inv(s, w) && w.Overwrites() > 0
    ensures Advanced(w, Next(s, w, ChaseStep(w)), Behind(w))
  {
    ChaseEnabled(s, w);
    if Behind(w) == A {
      DeliveryAdvances(s, w, NewEph(w));
    } else {
      DeliveryAdvances(s, w.Swap(), NewEph(w));
    }
  }

  lemma ChaseOne(s: Suite, w: World, n: nat) returns (w': World)
    requires Inv(s, w) && w.Overwrites() > 0 && !Level(w, n)
    ensures w' == Next(s, w, ChaseStep(w)) && Inv(s, w') && w'.Overwrites() > 0
    ensures 0 <= Distance(w', n) < Distance(w, n)
  {
    w' := Next(s, w, ChaseStep(w));
    NextKeepsInv(s, w, ChaseStep(w));
    DeliverKeepsOverwrites(s, w, ChaseStep(w));
    ChaseAdvances(s, w);
    AdvanceShortens(w, w', n);
  }

  /** Fresh deliveries that bring both ends level at n or more. */
  predicate Levels(s: Suite, w: World, steps: seq<Step>, n: nat) {
    AllDeliver(steps) && FreshRun(s, w, steps) && Level(Run(s, w, steps), n)
  }

  lemma LevelsCons(s: Suite, w: World, step: Step, rest: seq<Step>, n: nat)
    requires step.Deliver? && FreshFor(w, step.eph) && Levels(s, Next(s, w, step), rest, n)
    ensures Levels(s, w, [step] + rest, n)
  {
    RunCons(s, w, step, rest);
    assert ([step] + rest)[1..] == rest;
  }

  lemma {:induction false} Chase(s: Suite, w: World, n: nat, budget: nat) returns (steps: seq<Step>)
    requires Inv(s, w) && w.Overwrites() > 0 && Distance(w, n) <= budget
    ensures Levels(s, w, steps, n)
    decreases budget
  {
    if Level(w, n) {
      steps := [];
    } else {
      var w' := ChaseOne(s, w, n);
      var rest := Chase(s, w', n, budget - 1);
      steps := [ChaseStep(w)] + rest;
      LevelsCons(s, w, ChaseStep(w), rest, n);
    }
  }

  /** Ends that processed equally many packets hold the same key. */
  predicate Agreeing(w: World) {
    w.a.end.key.Some? && w.b.end.key.Some? && |w.a.used| == |w.b.used| ==> w.a.end.key == w.b.end.key
  }

  lemma {:induction false} DeliveriesOverwriteNothing(s: Suite, w: World, steps: seq<Step>)
    requires AllDeliver(steps)
    ensures Run(s, w, steps).Overwrites() == w.Overwrites()
    decreases |steps|
  {
    if steps != [] {
      DeliverKeepsOverwrites(s, w, steps[0]);
      DeliveriesOverwriteNothing(s, Next(s, w, steps[0]), steps[1..]);
    }
  }

  lemma DeliveriesAgree(s: Suite, w: World, steps: seq<Step>)
    requires s.Symmetric() && Reachable(s, w) && w.Overwrites() == 0 && AllDeliver(steps)
    ensures Agreeing(Run(s, w, steps))
  {
    DeliveriesOverwriteNothing(s, w, steps);
    ReachableExtends(s, w, steps);
    Agreement(s, Run(s, w, steps), []);
  }

  /** A disagreement within reach of an overwrite, by deliveries alone. */
  lemma SplitShows(s: Suite, w: World) returns (steps: seq<Step>)
    requires s.CollisionFree() && FreshlyReachable(s, w) && w.Overwrites() > 0
    ensures Levels(s, w, steps, MostSent(w)) && !Agreeing(Run(s, w, steps))
  {
    FreshlyReachableInv(s, w);
    steps := Chase(s, w, MostSent(w), Max(0, Distance(w, MostSent(w))));
    OverwriteSplitsForGood(s, w, steps);
  }

  /**
    Agreement, exactly.  With fresh ephemerals, the two ends agree at every level moment
    of every further delivery if and only if no slot was overwritten.
   */
  lemma AgreesIffNoOverwrite(s: Suite, w: World)
    requires s.Symmetric() && s.CollisionFree() && FreshlyReachable(s, w)
    ensures (forall steps: seq<Step> :: AllDeliver(steps) && FreshRun(s, w, steps) ==> Agreeing(Run(s, w, steps)))
            <==> w.Overwrites() == 0
  {
    FreshlyReachableInv(s, w);
    if w.Overwrites() == 0 {
      forall steps: seq<Step> | AllDeliver(steps) && FreshRun(s, w, steps) ensures Agreeing(Run(s, w, steps)) {
        DeliveriesAgree(s, w, steps);
      }
    } else {
      var steps := SplitShows(s, w);
      assert AllDeliver(steps) && FreshRun(s, w, steps) && !Agreeing(Run(s, w, steps));
    }
  }

  lemma RunTwo(s: Suite, w: World, first: Step, second: Step, rest: seq<Step>)
    ensures Run(s, w, [first, second] + rest) == Run(s, Next(s, Next(s, w, first), second), rest)
    ensures (&& FreshFor(w, first.eph) && FreshFor(Next(s, w, first), second.eph)
             && FreshRun(s, Next(s, Next(s, w, first), second), rest))
            ==> FreshRun(s, w, [first, second] + rest)
  {
    var steps := [first, second] + rest;
    assert steps[1..] == [second] + rest && steps[1..][1..] == rest;
    RunCons(s, w, first, [second] + rest);
    RunCons(s, Next(s, w, first), second, rest);
  }

  /** End A initiates twice in a row. */
  function TwiceInitiated(): seq<Step> {
    [Deliver(A, 0), Deliver(B, 0)] + ([Initiate(A, 1), Initiate(A, 2)] + [])
  }

  function TwiceAnswered(): seq<Step> {
    [Deliver(B, 3), Deliver(B, 4)] + ([Deliver(A, 5), Deliver(A, 6)] + [])
  }

  lemma TwiceInitiatedRun(s: Suite, idA: PrivateKey, idB: PrivateKey)
    ensures FreshRun(s, Start(s, idA, idB), TwiceInitiated())
    ensures var w := Run(s, Start(s, idA, idB), TwiceInitiated());
            && w.Overwrites() == 1 && w.a.sent == [1, 2] && w.b.sent == []
            && w.a.out == [Rekey(s.pub(1)), Rekey(s.pub(2))] && w.b.out == [] && w.a.end.slot == Some(2)
            && w.b.end.slot == None && w.a.used == [] && w.b.used == []
            && w.a.end.key.Some? && w.b.end.key.Some?
  {
    var w0 := Start(s, idA, idB);
    var w1 := Next(s, Next(s, w0, Deliver(A, 0)), Deliver(B, 0));
    RunTwo(s, w0, Deliver(A, 0), Deliver(B, 0), [Initiate(A, 1), Initiate(A, 2)] + []);
    RunTwo(s, w1, Initiate(A, 1), Initiate(A, 2), []);
  }

  lemma TwiceAnsweredRun(s: Suite, w: World)
    requires w.a.sent == [1, 2] && w.b.sent == [] && w.a.used == [] && w.b.used == []
    requires w.a.out == [Rekey(s.pub(1)), Rekey(s.pub(2))] && w.b.out == []
    requires w.a.end.slot == Some(2) && w.b.end.slot == None && w.a.end.key.Some? && w.b.end.key.Some?
    ensures FreshRun(s, w, TwiceAnswered())
    ensures var w' := Run(s, w, TwiceAnswered()); w'.a.used == [2, 6] && w'.b.used == [3, 4]
  {
    var w1 := Next(s, Next(s, w, Deliver(B, 3)), Deliver(B, 4));
    assert w1.b.sent == [3, 4] && w1.b.out == [Rekey(s.pub(3)), Rekey(s.pub(4))];
    RunTwo(s, w, Deliver(B, 3), Deliver(B, 4), [Deliver(A, 5), Deliver(A, 6)] + []);
    RunTwo(s, w1, Deliver(A, 5), Deliver(A, 6), []);
  }

  /**
    An input that breaks both promises.  End A initiates twice before the first answer;
    after four deliveries both ends have processed two packets and hold different keys,
    and a repeated hello would change end A.
   */
  lemma OverwriteExample(s: Suite, idA: PrivateKey, idB: PrivateKey)
    requires s.CollisionFree()
    ensures var w := Run(s, Start(s, idA, idB), TwiceInitiated());
            var w' := Run(s, w, TwiceAnswered());
            && FreshlyReachable(s, w) && w.Overwrites() == 1
            && |w'.a.used| == |w'.b.used| == 2 && w'.a.end.key != w'.b.end.key
            && OnHello(s, w'.a.end, s.pub(w'.b.end.identity)).end != w'.a.end
  {
    TwiceInitiatedRun(s, idA, idB);
    var w := Run(s, Start(s, idA, idB), TwiceInitiated());
    TwiceAnsweredRun(s, w);
    OverwriteSplitsForGood(s, w, TwiceAnswered());
    FreshlyReachableInv(s, w);
    ReachableExtends(s, w, TwiceAnswered());
    ReachableInv(s, Run(s, w, TwiceAnswered()));
    RepeatedHelloHarmlessIff(s, Run(s, w, TwiceAnswered()));
  }

  // ---------------------------------------------------------------------------
  // Slots that outlive their connection.
  // ---------------------------------------------------------------------------

  /** A connection that opens while slots may still hold ephemerals of an older one. */
  function StartWithSlots(
    s: Suite, idA: PrivateKey, idB: PrivateKey, staleA: Option<PrivateKey>, staleB: Option<PrivateKey>): World
  {
    World(Opened(s, idA, staleA), Opened(s, idB, staleB))
  }

  /** The ends agree, unless an ephemeral of this very connection was overwritten. */
  predicate Agrees(w: World) { w.Overwrites() == 0 ==> Agreeing(w) }

  function Flips(steps: seq<Step>): seq<Step> {
    seq(|steps|, k requires 0 <= k < |steps| => Flip(steps[k]))
  }

  lemma {:induction false} RunSwap(s: Suite, w: World, steps: seq<Step>)
    ensures Run(s, w.Swap(), Flips(steps)) == Run(s, w, steps).Swap()
    decreases |steps|
  {
    if steps != [] {
      NextSwap(s, w, steps[0]);
      assert Flips(steps)[1..] == Flips(steps[1..]);
      RunSwap(s, Next(s, w, steps[0]), steps[1..]);
    }
  }

  /** One initiation of each end, with a stale slot in the way. */
  function StaleSteps(eB: PrivateKey, eA: PrivateKey): seq<Step> {
    [Deliver(A, 0), Deliver(B, 0), Initiate(B, eB), Deliver(A, 0), Initiate(A, eA), Deliver(B, 0)]
  }

  lemma StaleRun(
    s: Suite, idA: PrivateKey, idB: PrivateKey, x: PrivateKey, staleB: Option<PrivateKey>, eB: PrivateKey, eA: PrivateKey)
    ensures var w := Run(s, StartWithSlots(s, idA, idB, Some(x), staleB), StaleSteps(eB, eA));
            && w.Overwrites() == 0 && |w.a.used| == |w.b.used| == 1
            && w.a.end.key == Some(s.mix(s.kdf(s.dh(idA, s.pub(idB))), s.dh(x, s.pub(eB))))
            && w.b.end.key == Some(s.mix(s.kdf(s.dh(idB, s.pub(idA))), s.dh(eB, s.pub(eA))))
  {
    var w0 := StartWithSlots(s, idA, idB, Some(x), staleB);
    var w1 := Next(s, Next(s, w0, Deliver(A, 0)), Deliver(B, 0));
    var w2 := Next(s, Next(s, w1, Initiate(B, eB)), Deliver(A, 0));
    var w3 := Next(s, Next(s, w2, Initiate(A, eA)), Deliver(B, 0));
    var tail := [Initiate(A, eA), Deliver(B, 0)];
    var middle := [Initiate(B, eB), Deliver(A, 0)] + tail;
    assert StaleSteps(eB, eA) == [Deliver(A, 0), Deliver(B, 0)] + middle;
    RunTwo(s, w0, Deliver(A, 0), Deliver(B, 0), middle);
    RunTwo(s, w1, Initiate(B, eB), Deliver(A, 0), tail);
    RunTwo(s, w2, Initiate(A, eA), Deliver(B, 0), []);
  }

  lemma StaleDisagrees(s: Suite, idA: PrivateKey, idB: PrivateKey, x: PrivateKey, staleB: Option<PrivateKey>)
    requires s.CollisionFree()
    ensures !Agrees(Run(s, StartWithSlots(s, idA, idB, Some(x), staleB), StaleSteps(x + 1, x + 2)))
  {
    StaleRun(s, idA, idB, x, staleB, x + 1, x + 2);
  }

  /**
    A slot that survived the previous connection breaks agreement: on a new connection
    every run agrees if and only if neither end has one.
   */
  lemma StaleSlotIff(
    s: Suite, idA: PrivateKey, idB: PrivateKey, staleA: Option<PrivateKey>, staleB: Option<PrivateKey>)
    requires s.Symmetric() && s.CollisionFree()
    ensures (forall steps: seq<Step> :: Agrees(Run(s, StartWithSlots(s, idA, idB, staleA, staleB), steps)))
            <==> staleA.None? && staleB.None?
  {
    var w0 := StartWithSlots(s, idA, idB, staleA, staleB);
    if staleA.Some? {
      StaleDisagrees(s, idA, idB, staleA.value, staleB);
    } else if staleB.Some? {
      var y := staleB.value;
      StaleDisagrees(s, idB, idA, y, staleA);
      RunSwap(s, w0.Swap(), StaleSteps(y + 1, y + 2));
      assert w0.Swap() == StartWithSlots(s, idB, idA, staleB, staleA) && w0.Swap().Swap() == w0;
      assert !Agrees(Run(s, w0, Flips(StaleSteps(y + 1, y + 2))));
    } else {
      forall steps: seq<Step> ensures Agrees(Run(s, w0, steps)) {
        EmptySlotsAgree(s, idA, idB, steps);
      }
    }
  }

  lemma EmptySlotsAgree(s: Suite, idA: PrivateKey, idB: PrivateKey, steps: seq<Step>)
    requires s.Symmetric()
    ensures Agrees(Run(s, StartWithSlots(s, idA, idB, None, None), steps))
  {
    var w := Run(s, StartWithSlots(s, idA, idB, None, None), steps);
    assert w == Run(s, Start(s, idA, idB), steps);
    if w.Overwrites() == 0 {
      assert Run(s, w, []) == w;
      Agreement(s, w, []);
    }
  }

  /**
    A repeated hello derives the first session key again.  It leaves the end as it
    was if and only if the end has not processed any rekey packet.
   */
  lemma RepeatedHelloHarmlessIff(s: Suite, w: World)
    requires s.CollisionFree()
    requires Reachable(s, w)
    ensures w.a.end.key.Some? ==>
              (OnHello(s, w.a.end, s.pub(w.b.end.identity)).end == w.a.end <==> w.a.used == [])
    ensures w.b.end.key.Some? ==>
              (OnHello(s, w.b.end, s.pub(w.a.end.identity)).end == w.b.end <==> w.b.used == [])
  {
    ReachableInv(s, w);
  }

  /** A suite of free symbols; the assumptions above are consistent. */
  function Symbolic(): Suite {
    Suite(
      x => x,
      (a, b) => if a < b then [a, b] else [b, a],
      d => [0] + d,
      (k: Bytes, s: Bytes) => [|k| + 1] + k + s)
  }

  lemma SymbolicMixInjective(k: Bytes, s: Bytes, k': Bytes, s': Bytes)
    requires Symbolic().mix(k, s) == Symbolic().mix(k', s')
    ensures k == k' && s == s'
  {
    var m, m' := [|k| + 1] + k + s, [|k'| + 1] + k' + s';
    assert m == m' && m[0] == |k| + 1 && m'[0] == |k'| + 1;
    assert m[1..|k| + 1] == k && m'[1..|k'| + 1] == k';
    assert m[|k| + 1..] == s && m'[|k'| + 1..] == s';
  }

  lemma SymbolicSecretNames(x: PrivateKey, y: PrivateKey, z: PrivateKey, e: PrivateKey)
    requires Symbolic().dh(x, y) == Symbolic().dh(z, e)
    ensures e == x || e == y
  {
  }

  lemma SymbolicIsSymmetric()
    ensures Symbolic().Symmetric()
  {
  }

  lemma SymbolicIsCollisionFree()
    ensures Symbolic().CollisionFree()
  {
    var su := Symbolic();
    forall d: Bytes, k: Bytes, s: Bytes ensures su.kdf(d) != su.mix(k, s) {
      assert su.kdf(d)[0] == 0 && su.mix(k, s)[0] == |k| + 1;
    }
    forall k: Bytes, s: Bytes, k': Bytes, s': Bytes | su.mix(k, s) == su.mix(k', s') ensures k == k' && s == s' {
      SymbolicMixInjective(k, s, k', s');
    }
    forall x: PrivateKey, y: PrivateKey, z: PrivateKey, e: PrivateKey | su.dh(x, su.pub(y)) == su.dh(z, su.pub(e))
      ensures e == x || e == y
    {
      SymbolicSecretNames(x, y, z, e);
    }
  }
}
