/**
  Chat delivery with retries: envelope IDs, the queue of unsent messages, the sender
  that reuses a queued message's ID on every retry, and the receiver that drops
  replays before it does anything else.
 */
module Delivery {
  import opened Basics
  import opened Text

  // ---------------------------------------------------------------------------
  // Envelope IDs.
  // ---------------------------------------------------------------------------

  const SEQ_MODULUS: nat := 0x1_0000_0000_0000_0000

  /** The 64-bit sequence number after `count` increments; it wraps. */
  function SeqNumber(count: nat): nat { count % SEQ_MODULUS }

  function DeviceName(device: string): string { if device == "" then "cli" else device }

  function IdHead(jid: string, device: string): string { jid + "|" + DeviceName(device) + "|" }

  /** What the clock and the random source contribute to an ID. */
  datatype Stamp = Stamp(nano: int, rand: string)

  /** sender | device | seq | clock | random suffix. */
  function EnvelopeId(jid: string, device: string, seqNo: nat, nano: int, rand: string): string {
    IdHead(jid, device) + (FormatNat(seqNo) + "|" + (Itoa(nano) + "|" + rand))
  }

  lemma DigitsLackBar(n: nat)
    ensures '|' !in FormatNat(n)
  {
    ParseFormatNat(n);
  }

  lemma SameHead(head: string, a: string, b: string)
    requires head + a == head + b
    ensures a == b
  {
    assert a == (head + a)[|head|..] && b == (head + b)[|head|..];
  }

  lemma FirstNumberUnique(m: nat, n: nat, restM: string, restN: string)
    requires FormatNat(m) + "|" + restM == FormatNat(n) + "|" + restN
    ensures m == n
  {
    DigitsLackBar(m);
    DigitsLackBar(n);
    FirstFieldUnique(FormatNat(m), FormatNat(n), '|', restM, restN);
    FormatNatInjective(m, n);
  }

  /** The sequence number can be read off an ID, whatever the clock and the random suffix. */
  lemma EnvelopeIdsDiffer(
    jid: string, device: string, m: nat, nanoM: int, randM: string, n: nat, nanoN: int, randN: string)
    requires m != n
    ensures EnvelopeId(jid, device, m, nanoM, randM) != EnvelopeId(jid, device, n, nanoN, randN)
  {
    var restM, restN := Itoa(nanoM) + "|" + randM, Itoa(nanoN) + "|" + randN;
    if EnvelopeId(jid, device, m, nanoM, randM) == EnvelopeId(jid, device, n, nanoN, randN) {
      SameHead(IdHead(jid, device), FormatNat(m) + "|" + restM, FormatNat(n) + "|" + restN);
      FirstNumberUnique(m, n, restM, restN);
    }
  }

  lemma IdFields(jid: string, device: string, n: nat, nano: int, rand: string)
    ensures EnvelopeId(jid, device, n, nano, rand) ==
            jid + "|" + (DeviceName(device) + "|" + (FormatNat(n) + "|" + (Itoa(nano) + "|" + rand)))
  {
  }

  /** IDs of different senders or devices differ, if their names do not contain the separator. */
  lemma IdsOfSendersDiffer(
    jid: string, device: string, m: nat, nanoM: int, randM: string,
    jid': string, device': string, n: nat, nanoN: int, randN: string)
    requires '|' !in jid && '|' !in jid' && '|' !in device && '|' !in device'
    requires jid != jid' || DeviceName(device) != DeviceName(device')
    ensures EnvelopeId(jid, device, m, nanoM, randM) != EnvelopeId(jid', device', n, nanoN, randN)
  {
    var restM := FormatNat(m) + "|" + (Itoa(nanoM) + "|" + randM);
    var restN := FormatNat(n) + "|" + (Itoa(nanoN) + "|" + randN);
    IdFields(jid, device, m, nanoM, randM);
    IdFields(jid', device', n, nanoN, randN);
    if EnvelopeId(jid, device, m, nanoM, randM) == EnvelopeId(jid', device', n, nanoN, randN) {
      FirstFieldUnique(jid, jid', '|', DeviceName(device) + "|" + restM, DeviceName(device') + "|" + restN);
      SameHead(jid + "|", DeviceName(device) + "|" + restM, DeviceName(device') + "|" + restN);
      FirstFieldUnique(DeviceName(device), DeviceName(device'), '|', restM, restN);
    }
  }

  /** A literal ID, without a device name. */
  lemma EnvelopeIdExample()
    ensures EnvelopeId("korik:ab", "", 7, -3, "0f") == "korik:ab|cli|7|-3|0f"
  {
    assert IdHead("korik:ab", "") == "korik:ab|cli|";
    assert FormatNat(7) == "7" && Itoa(-3) == "-" + FormatNat(3) && FormatNat(3) == "3";
  }

  lemma EnvelopeIdNonEmpty(jid: string, device: string, n: nat, nano: int, rand: string)
    ensures EnvelopeId(jid, device, n, nano, rand) != ""
  {
  }

  // ---------------------------------------------------------------------------
  // The queue of unsent messages.
  // ---------------------------------------------------------------------------

  const MAX_MESSAGES: nat := 1000

  /**
    A chat message as it travels.  `origin` is not on the wire: it records the number of
    the QueueOrSend call that the message goes back to, whatever ID it is sent under.
   */
  datatype Chat = Chat(id: string, dest: string, body: string, origin: nat)

  datatype Outgoing = Outgoing(chat: Chat, attempts: nat)

  /** A message without an ID is named after its destination and creation time. */
  function Named(m: Outgoing, created: string): Outgoing {
    if m.chat.id == "" then m.(chat := m.chat.(id := m.chat.dest + ":" + created)) else m
  }

  function Enqueued(items: seq<Outgoing>, m: Outgoing): seq<Outgoing> {
    if |items| < MAX_MESSAGES then items + [m] else (items + [m])[|items| + 1 - MAX_MESSAGES..]
  }

  function Removed(items: seq<Outgoing>, id: string): seq<Outgoing> {
    if items == [] then []
    else
      var rest := Removed(items[..|items| - 1], id);
      var last := items[|items| - 1];
      if last.chat.id != id then rest + [last] else rest
  }

  function Attempted(items: seq<Outgoing>, id: string): seq<Outgoing> {
    seq(|items|, i requires 0 <= i < |items| =>
      if items[i].chat.id == id then items[i].(attempts := items[i].attempts + 1) else items[i])
  }

  class Queue {
    var items: seq<Outgoing>

    constructor ()
      ensures items == []
    {
      items := [];
    }

    method Enqueue(m: Outgoing, created: string)
      modifies this
      ensures items == Enqueued(old(items), Named(m, created))
      ensures items != [] && items[|items| - 1] ==
              m.(chat := m.chat.(id := if m.chat.id == "" then m.chat.dest + ":" + created else m.chat.id))
    {
      var msg := m;
      if msg.chat.id == "" {
        msg := msg.(chat := msg.chat.(id := msg.chat.dest + ":" + created));
      }
      items := items + [msg];
      if |items| > MAX_MESSAGES {
        items := items[|items| - MAX_MESSAGES..];
      }
    }

    method Pending() returns (copy: seq<Outgoing>)
      ensures copy == items
    {
      copy := items;
    }

    method Remove(id: string)
      modifies this
      ensures items == Removed(old(items), id)
    {
      var kept := [];
      for i := 0 to |items|
        invariant items == old(items) && kept == Removed(items[..i], id)
      {
        assert items[..i + 1][..i] == items[..i];
        if items[i].chat.id != id {
          kept := kept + [items[i]];
        }
      }
      assert items[..|items|] == items;
      items := kept;
    }

    method MarkAttempt(id: string)
      modifies this
      ensures items == Attempted(old(items), id)
    {
      for i := 0 to |items|
        invariant |items| == |old(items)|
        invariant forall k :: 0 <= k < i ==> items[k] == Attempted(old(items), id)[k]
        invariant forall k :: i <= k < |items| ==> items[k] == old(items)[k]
      {
        if items[i].chat.id == id {
          items := items[i := items[i].(attempts := items[i].attempts + 1)];
        }
      }
    }
  }

  // ---------------------------------------------------------------------------
  // The sender.
  // ---------------------------------------------------------------------------

  /**
    A sender: its identity, how many IDs it minted and which, its queue, everything it wrote
    to connections, everything it gave to a flush's callback, and every message it was asked
    to send, with the mint count of its ID.
   */
  datatype Sender = Sender(
    jid: string,
    device: string,
    count: nat,
    minted: seq<string>,
    queue: seq<Outgoing>,
    wire: seq<Chat>,
    called: seq<Chat>,
    asked: seq<Chat>,
    counts: seq<nat>)

  function NewSender(jid: string, device: string): Sender { Sender(jid, device, 0, [], [], [], [], [], []) }

  /** The ID that a mint at this moment yields. */
  function NewId(s: Sender, stamp: Stamp): string {
    EnvelopeId(s.jid, s.device, SeqNumber(s.count + 1), stamp.nano, stamp.rand)
  }

  function Minted(s: Sender, stamp: Stamp): Sender {
    s.(count := s.count + 1, minted := s.minted + [NewId(s, stamp)])
  }

  /**
    QueueOrSend.  `write` is present when the peer is connected with a session key: the
    packet then takes a sequence number of its own besides the one in its ID, from a mint
    whose ID is not used.
   */
  function Submitted(s: Sender, dest: string, body: string, write: Option<Stamp>, stamp: Stamp): Sender {
    var chat := Chat(NewId(s, stamp), dest, body, |s.asked|);
    var s' := Minted(s, stamp).(asked := s.asked + [chat], counts := s.counts + [s.count + 1]);
    match write
    case Some(w) => Minted(s', w).(wire := s.wire + [chat])
    case None => s'.(queue := Enqueued(s.queue, Outgoing(chat, 0)))
  }

  /** The attempt counters after a flush turned to message `id`; only FlushQueue marks. */
  function Tallied(items: seq<Outgoing>, id: string, marks: bool): seq<Outgoing> {
    if marks then Attempted(items, id) else items
  }

  /** How a flush fared with one message: written, taken by the caller's callback, or neither. */
  datatype Attempt = Sent(stamp: Stamp) | Called | Failed

  /** One iteration of a flush over a message of the snapshot. */
  function FlushedOne(s: Sender, m: Outgoing, dest: string, marks: bool, attempt: Attempt): Sender {
    if m.chat.dest != dest then s
    else
      var items := Tallied(s.queue, m.chat.id, marks);
      match attempt
      case Sent(stamp) => Minted(s, stamp).(wire := s.wire + [m.chat], queue := Removed(items, m.chat.id))
      case Called => s.(called := s.called + [m.chat], queue := Removed(items, m.chat.id))
      case Failed => s.(queue := items)
  }

  /**
    A flush over the first n messages of a snapshot of the queue.  FlushQueue marks each
    attempt; the flush that follows a hello does not.
   */
  function Flushed(s: Sender, pending: seq<Outgoing>, n: nat, dest: string, marks: bool, attempts: nat -> Attempt): Sender
    requires n <= |pending|
  {
    if n == 0 then s
    else FlushedOne(Flushed(s, pending, n - 1, dest, marks, attempts), pending[n - 1], dest, marks, attempts(n - 1))
  }

  /** One attempt: the session first, then the callback. */
  function AttemptOf(write: Option<Stamp>, delivers: bool): Attempt {
    if write.Some? then Sent(write.value) else if delivers then Called else Failed
  }

  function Attempts(write: nat -> Option<Stamp>, deliver: Option<nat -> bool>): nat -> Attempt {
    (i: nat) => AttemptOf(write(i), deliver.Some? && deliver.value(i))
  }

  /** The messaging half of a node. */
  class Node {
    const jid: string
    const device: string
    const queue: Queue
    var count: nat
    var minted: seq<string>
    var wire: seq<Chat>
    var called: seq<Chat>
    var asked: seq<Chat>
    var counts: seq<nat>

    function View(): Sender
      reads this, queue
    {
      Sender(jid, device, count, minted, queue.items, wire, called, asked, counts)
    }

    constructor (jid: string, device: string)
      ensures fresh(queue) && View() == NewSender(jid, device)
    {
      this.jid, this.device := jid, device;
      queue := new Queue();
      count, minted, wire, called, asked, counts := 0, [], [], [], [], [];
    }

    method NextEnvelopeId(stamp: Stamp) returns (id: string)
      modifies this
      ensures View() == Minted(old(View()), stamp)
      ensures id == EnvelopeId(jid, device, SeqNumber(count), stamp.nano, stamp.rand)
    {
      count := count + 1;
      id := EnvelopeId(jid, device, count % SEQ_MODULUS, stamp.nano, stamp.rand);
      minted := minted + [id];
    }

    /** SendToWithID: the packet carries the given ID and a fresh sequence number. */
    method SendToWithId(chat: Chat, write: Option<Stamp>) returns (ok: bool)
      modifies this
      ensures ok == write.Some?
      ensures View() == if ok then Minted(old(View()), write.value).(wire := old(wire) + [chat]) else old(View())
    {
      if write.None? {
        return false;
      }
      var _ := NextEnvelopeId(write.value);
      wire := wire + [chat];
      return true;
    }

    method QueueOrSend(dest: string, body: string, write: Option<Stamp>, stamp: Stamp, created: string)
      modifies this, queue
      ensures View() == Submitted(old(View()), dest, body, write, stamp)
      ensures |asked| == |old(asked)| + 1 && asked[|old(asked)|].dest == dest && asked[|old(asked)|].body == body
    {
      var id := NextEnvelopeId(stamp);
      var chat := Chat(id, dest, body, |asked|);
      asked, counts := asked + [chat], counts + [count];
      ghost var asking := View();
      assert asking == Minted(old(View()), stamp).(asked := old(asked) + [chat], counts := old(counts) + [count]);
      var ok := SendToWithId(chat, write);
      if !ok {
        EnvelopeIdNonEmpty(jid, device, SeqNumber(count), stamp.nano, stamp.rand);
        queue.Enqueue(Outgoing(chat, 0), created);
      }
    }

    /** What a flush does with one message for its peer. */
    method Resend(m: Outgoing, marks: bool, write: Option<Stamp>, delivers: bool) returns (taken: bool)
      modifies this, queue
      ensures View() == FlushedOne(old(View()), m, m.chat.dest, marks, AttemptOf(write, delivers))
      ensures |wire| + |called| == |old(wire)| + |old(called)| + (if taken then 1 else 0)
    {
      if marks {
        queue.MarkAttempt(m.chat.id);
      }
      taken := SendToWithId(m.chat, write);
      if !taken && delivers {
        called := called + [m.chat];
        taken := true;
      }
      if taken {
        queue.Remove(m.chat.id);
      }
    }

    /**
      FlushQueue: `write` and `deliver` tell for each message whether the resend and, failing
      that, the caller's callback succeeds.
     */
    method FlushQueue(dest: string, write: nat -> Option<Stamp>, deliver: Option<nat -> bool>) returns (sent: nat)
      modifies this, queue
      ensures View() == Flushed(old(View()), old(queue.items), |old(queue.items)|, dest, true, Attempts(write, deliver))
      ensures |wire| + |called| == |old(wire)| + |old(called)| + sent
    {
      sent := 0;
      var pending := queue.Pending();
      for i := 0 to |pending|
        invariant View() == Flushed(old(View()), pending, i, dest, true, Attempts(write, deliver))
        invariant |wire| + |called| == |old(wire)| + |old(called)| + sent
      {
        if pending[i].chat.dest == dest {
          var taken := Resend(pending[i], true, write(i), deliver.Some? && deliver.value(i));
          if taken {
            sent := sent + 1;
          }
        }
      }
    }

    /** The flush at the end of the hello case of handleMessage. */
    method FlushOnHello(dest: string, write: nat -> Option<Stamp>)
      modifies this, queue
      ensures View() == Flushed(old(View()), old(queue.items), |old(queue.items)|, dest, false, Attempts(write, None))
    {
      var pending := queue.Pending();
      for i := 0 to |pending|
        invariant View() == Flushed(old(View()), pending, i, dest, false, Attempts(write, None))
      {
        if pending[i].chat.dest == dest {
          var _ := Resend(pending[i], false, write(i), false);
        }
      }
    }
  }
}
