/**
  Composition of the retrying sender with the replay-suppressing receiver: however
  often a message is resent and however the network repeats it, the application sees
  it at most once within the replay window, and different messages are never confused.
 */
module AtMostOnce {
  import opened Basics
  import opened Delivery
  import Dedup

  // ---------------------------------------------------------------------------
  // Runs of the sender.
  // ---------------------------------------------------------------------------

  datatype SendStep =
    | Submit(dest: string, body: string, write: Option<Stamp>, stamp: Stamp)
    | Flush(dest: string, marks: bool, attempts: nat -> Attempt)
    | MintOther(stamp: Stamp)

  function Next(s: Sender, step: SendStep): Sender {
    match step
    case Submit(dest, body, write, stamp) => Submitted(s, dest, body, write, stamp)
    case Flush(dest, marks, attempts) => Flushed(s, s.queue, |s.queue|, dest, marks, attempts)
    case MintOther(stamp) => Minted(s, stamp)
  }

  function Run(s: Sender, steps: seq<SendStep>): Sender
    decreases |steps|
  {
    if steps == [] then s else Run(Next(s, steps[0]), steps[1..])
  }

  /** `id` was minted with sequence number n, at whatever time and with whatever suffix. */
  ghost predicate MintedAs(id: string, jid: string, device: string, n: nat) {
    exists nano: int, rand: string :: id == EnvelopeId(jid, device, n, nano, rand)
  }

  lemma MintedOnce(id: string, jid: string, device: string, m: nat, n: nat)
    requires MintedAs(id, jid, device, m) && MintedAs(id, jid, device, n)
    ensures m == n
  {
    var nanoM: int, randM: string :| id == EnvelopeId(jid, device, m, nanoM, randM);
    var nanoN: int, randN: string :| id == EnvelopeId(jid, device, n, nanoN, randN);
    if m != n {
      EnvelopeIdsDiffer(jid, device, m, nanoM, randM, n, nanoN, randN);
    }
  }

  /** The k-th ID was minted with sequence number k + 1. */
  ghost predicate Genuine(s: Sender, k: nat)
    requires k < |s.minted|
  {
    MintedAs(s.minted[k], s.jid, s.device, SeqNumber(k + 1))
  }

  ghost predicate Ledger(s: Sender) {
    && |s.minted| == s.count
    && forall k {:trigger Genuine(s, k)} :: 0 <= k < |s.minted| ==> Genuine(s, k)
  }

  /** Message k goes back to submission k and carries the ID minted for it. */
  ghost predicate Attested(s: Sender, k: nat)
    requires k < |s.asked| == |s.counts|
  {
    s.asked[k].origin == k && 0 < s.counts[k] <= |s.minted| && s.asked[k].id == s.minted[s.counts[k] - 1]
  }

  ghost predicate AsksNumbered(s: Sender) {
    && Ledger(s)
    && |s.asked| == |s.counts|
    && (forall k :: 0 <= k < |s.counts| ==> Attested(s, k))
    && (forall j, k :: 0 <= j < k < |s.counts| ==> s.counts[j] < s.counts[k])
  }

  ghost function ChatSet(items: seq<Outgoing>): set<Chat> {
    set i | 0 <= i < |items| :: items[i].chat
  }

  /** Whatever is queued or was sent is a message the sender was asked to send, ID included. */
  ghost predicate OnlyAsked(s: Sender) {
    forall c :: c in ChatSet(s.queue) || c in s.wire || c in s.called ==> c in s.asked
  }

  ghost predicate Inv(s: Sender) { AsksNumbered(s) && OnlyAsked(s) }

  lemma SeqNumberBelow(n: nat)
    requires n < SEQ_MODULUS
    ensures SeqNumber(n) == n
  {
  }

  lemma GenuineNumber(s: Sender, k: nat)
    requires Ledger(s) && s.count < SEQ_MODULUS && k < s.count
    ensures MintedAs(s.minted[k], s.jid, s.device, k + 1)
  {
    assert Genuine(s, k);
    SeqNumberBelow(k + 1);
  }

  /** As long as the 64-bit counter has not wrapped, no ID is minted twice. */
  lemma MintsDistinct(s: Sender, i: nat, j: nat)
    requires Ledger(s) && s.count < SEQ_MODULUS && i < s.count && j < s.count && s.minted[i] == s.minted[j]
    ensures i == j
  {
    GenuineNumber(s, i);
    GenuineNumber(s, j);
    MintedOnce(s.minted[i], s.jid, s.device, i + 1, j + 1);
  }

  /** So an ID names one message. */
  lemma IdsIdentify(s: Sender, i: nat, j: nat)
    requires AsksNumbered(s) && s.count < SEQ_MODULUS
    requires i < |s.asked| && j < |s.asked| && s.asked[i].id == s.asked[j].id
    ensures i == j
  {
    assert Attested(s, i) && Attested(s, j);
    MintsDistinct(s, s.counts[i] - 1, s.counts[j] - 1);
  }

  lemma SameIdSameChat(s: Sender, c: Chat, d: Chat)
    requires AsksNumbered(s) && s.count < SEQ_MODULUS && c in s.asked && d in s.asked && c.id == d.id
    ensures c == d
  {
    var p :| 0 <= p < |s.asked| && s.asked[p] == c;
    var q :| 0 <= q < |s.asked| && s.asked[q] == d;
    IdsIdentify(s, p, q);
  }

  // ---------------------------------------------------------------------------
  // What the queue operations do to the messages in the queue.
  // ---------------------------------------------------------------------------

  ghost function Without(chats: set<Chat>, id: string): set<Chat> {
    set c | c in chats && c.id != id
  }

  lemma ChatSetAppend(items: seq<Outgoing>, m: Outgoing)
    ensures ChatSet(items + [m]) == ChatSet(items) + {m.chat}
  {
    var more := items + [m];
    assert more[|items|] == m;
    forall c | c in ChatSet(items) ensures c in ChatSet(more) {
      var i :| 0 <= i < |items| && items[i].chat == c;
      assert more[i].chat == c;
    }
  }

  lemma {:induction false} RemovedChats(items: seq<Outgoing>, id: string)
    ensures ChatSet(Removed(items, id)) == Without(ChatSet(items), id)
  {
    if items != [] {
      var init, last := items[..|items| - 1], items[|items| - 1];
      RemovedChats(init, id);
      assert items == init + [last];
      ChatSetAppend(init, last);
      ChatSetAppend(Removed(init, id), last);
    }
  }

  lemma TalliedChats(items: seq<Outgoing>, id: string, marks: bool)
    ensures ChatSet(Tallied(items, id, marks)) == ChatSet(items)
  {
    var tallied := Tallied(items, id, marks);
    assert |tallied| == |items| && forall i :: 0 <= i < |items| ==> tallied[i].chat == items[i].chat;
  }

  lemma EnqueuedChats(items: seq<Outgoing>, m: Outgoing)
    ensures ChatSet(Enqueued(items, m)) <= ChatSet(items) + {m.chat} && m.chat in ChatSet(Enqueued(items, m))
    ensures |items| < MAX_MESSAGES ==> ChatSet(Enqueued(items, m)) == ChatSet(items) + {m.chat}
    ensures |items| == MAX_MESSAGES ==>
              && ChatSet(Enqueued(items, m)) == ChatSet(items[1..]) + {m.chat}
              && ChatSet(items) == {items[0].chat} + ChatSet(items[1..])
  {
    var kept := items[if |items| < MAX_MESSAGES then 0 else |items| + 1 - MAX_MESSAGES..];
    assert Enqueued(items, m) == kept + [m];
    ChatSetAppend(kept, m);
    if |items| == MAX_MESSAGES {
      assert items == [items[0]] + kept;
      forall c | c in ChatSet(items) ensures c == items[0].chat || c in ChatSet(kept) {
        var i :| 0 <= i < |items| && items[i].chat == c;
        assert i == 0 || kept[i - 1].chat == c;
      }
    }
  }

  /** A flush leaves the messages of the queue alone, except one that was taken. */
  lemma FlushOneChats(s: Sender, m: Outgoing, dest: string, marks: bool, attempt: Attempt)
    ensures var taken := m.chat.dest == dest && !attempt.Failed?;
            ChatSet(FlushedOne(s, m, dest, marks, attempt).queue) ==
            if taken then Without(ChatSet(s.queue), m.chat.id) else ChatSet(s.queue)
  {
    TalliedChats(s.queue, m.chat.id, marks);
    RemovedChats(Tallied(s.queue, m.chat.id, marks), m.chat.id);
  }

  // ---------------------------------------------------------------------------
  // The invariant.
  // ---------------------------------------------------------------------------

  lemma MintKeepsNumbers(s: Sender, stamp: Stamp)
    requires AsksNumbered(s)
    ensures AsksNumbered(Minted(s, stamp))
  {
    var s' := Minted(s, stamp);
    assert MintedAs(NewId(s, stamp), s.jid, s.device, SeqNumber(s.count + 1));
    forall k | 0 <= k < |s'.minted| ensures Genuine(s', k) {
      if k < |s.minted| {
        assert Genuine(s, k);
      }
    }
    forall k | 0 <= k < |s'.counts| ensures Attested(s', k) {
      assert Attested(s, k);
    }
  }

  lemma LedgerKept(s: Sender, s': Sender)
    requires Ledger(s) && s'.minted == s.minted && s'.count == s.count && s'.jid == s.jid && s'.device == s.device
    ensures Ledger(s')
  {
    forall k | 0 <= k < |s'.minted| ensures Genuine(s', k) {
      assert Genuine(s, k);
    }
  }

  /** A message that takes the latest ID. */
  lemma AskKeepsNumbers(s: Sender, s': Sender, chat: Chat)
    requires AsksNumbered(s) && s.count > 0 && forall k :: 0 <= k < |s.counts| ==> s.counts[k] < s.count
    requires chat.origin == |s.asked| && chat.id == s.minted[s.count - 1]
    requires s' == s.(asked := s.asked + [chat], counts := s.counts + [s.count])
    ensures AsksNumbered(s')
  {
    LedgerKept(s, s');
    forall k | 0 <= k < |s'.counts| ensures Attested(s', k) {
      if k < |s.counts| {
        assert Attested(s, k);
      }
    }
  }

  /** The queue and the wire do not matter for the numbering. */
  lemma NumbersKept(s: Sender, s': Sender)
    requires AsksNumbered(s) && s'.asked == s.asked && s'.counts == s.counts && s'.count == s.count
    requires s'.minted == s.minted && s'.jid == s.jid && s'.device == s.device
    ensures AsksNumbered(s')
  {
    LedgerKept(s, s');
    forall k | 0 <= k < |s'.counts| ensures Attested(s', k) {
      assert Attested(s, k);
    }
  }

  lemma SubmitKeepsNumbers(s: Sender, dest: string, body: string, write: Option<Stamp>, stamp: Stamp)
    requires AsksNumbered(s)
    ensures AsksNumbered(Submitted(s, dest, body, write, stamp))
  {
    var chat := Chat(NewId(s, stamp), dest, body, |s.asked|);
    var s1 := Minted(s, stamp);
    var s2 := s1.(asked := s.asked + [chat], counts := s.counts + [s.count + 1]);
    MintKeepsNumbers(s, stamp);
    forall k | 0 <= k < |s1.counts| ensures s1.counts[k] < s1.count {
      assert Attested(s, k);
    }
    AskKeepsNumbers(s1, s2, chat);
    var s' := Submitted(s, dest, body, write, stamp);
    if write.Some? {
      MintKeepsNumbers(s2, write.value);
      NumbersKept(Minted(s2, write.value), s');
    } else {
      NumbersKept(s2, s');
    }
  }

  lemma SubmitKeepsInv(s: Sender, dest: string, body: string, write: Option<Stamp>, stamp: Stamp)
    requires Inv(s)
    ensures Inv(Submitted(s, dest, body, write, stamp))
  {
    SubmitKeepsNumbers(s, dest, body, write, stamp);
    var s' := Submitted(s, dest, body, write, stamp);
    EnqueuedChats(s.queue, Outgoing(s'.asked[|s.asked|], 0));
  }

  /** What a flush never touches, and the log it only extends. */
  ghost predicate SameAsks(s: Sender, s': Sender) {
    && s'.asked == s.asked && s'.counts == s.counts && s'.jid == s.jid && s'.device == s.device
    && s'.count >= s.count && s.minted <= s'.minted
  }

  lemma FlushOneKeepsNumbers(s: Sender, m: Outgoing, dest: string, marks: bool, attempt: Attempt)
    requires AsksNumbered(s)
    ensures AsksNumbered(FlushedOne(s, m, dest, marks, attempt)) && SameAsks(s, FlushedOne(s, m, dest, marks, attempt))
  {
    var s' := FlushedOne(s, m, dest, marks, attempt);
    if m.chat.dest == dest && attempt.Sent? {
      MintKeepsNumbers(s, attempt.stamp);
      NumbersKept(Minted(s, attempt.stamp), s');
    } else {
      NumbersKept(s, s');
    }
  }

  lemma FlushOneKeepsInv(s: Sender, m: Outgoing, dest: string, marks: bool, attempt: Attempt)
    requires Inv(s) && m.chat in s.asked
    ensures Inv(FlushedOne(s, m, dest, marks, attempt)) && SameAsks(s, FlushedOne(s, m, dest, marks, attempt))
  {
    FlushOneChats(s, m, dest, marks, attempt);
    FlushOneKeepsNumbers(s, m, dest, marks, attempt);
  }

  /** A snapshot of messages the sender was asked to send. */
  ghost predicate Asked(s: Sender, pending: seq<Outgoing>) {
    forall i :: 0 <= i < |pending| ==> pending[i].chat in s.asked
  }

  lemma {:induction false} FlushKeepsInv(
    s: Sender, pending: seq<Outgoing>, n: nat, dest: string, marks: bool, attempts: nat -> Attempt)
    requires Inv(s) && n <= |pending| && Asked(s, pending)
    ensures Inv(Flushed(s, pending, n, dest, marks, attempts))
    ensures SameAsks(s, Flushed(s, pending, n, dest, marks, attempts))
  {
    if n > 0 {
      FlushKeepsInv(s, pending, n - 1, dest, marks, attempts);
      FlushOneKeepsInv(Flushed(s, pending, n - 1, dest, marks, attempts), pending[n - 1], dest, marks, attempts(n - 1));
    }
  }

  lemma QueueIsAsked(s: Sender)
    requires OnlyAsked(s)
    ensures Asked(s, s.queue)
  {
    forall i | 0 <= i < |s.queue| ensures s.queue[i].chat in s.asked {
      assert s.queue[i].chat in ChatSet(s.queue);
    }
  }

  lemma NextKeepsInv(s: Sender, step: SendStep)
    requires Inv(s)
    ensures Inv(Next(s, step)) && s.count <= Next(s, step).count && s.asked <= Next(s, step).asked
  {
    match step
    case Submit(dest, body, write, stamp) => SubmitKeepsInv(s, dest, body, write, stamp);
    case Flush(dest, marks, attempts) =>
      QueueIsAsked(s);
      FlushKeepsInv(s, s.queue, |s.queue|, dest, marks, attempts);
    case MintOther(stamp) => MintKeepsNumbers(s, stamp);
  }

  lemma {:induction false} RunKeepsInv(s: Sender, steps: seq<SendStep>)
    requires Inv(s)
    ensures Inv(Run(s, steps)) && s.count <= Run(s, steps).count && s.asked <= Run(s, steps).asked
    decreases |steps|
  {
    if steps != [] {
      NextKeepsInv(s, steps[0]);
      RunKeepsInv(Next(s, steps[0]), steps[1..]);
    }
  }

  // ---------------------------------------------------------------------------
  // What was asked is what was submitted.
  // ---------------------------------------------------------------------------

  /** The submissions of a run, in order. */
  function Submits(steps: seq<SendStep>): seq<SendStep>
    decreases |steps|
  {
    if steps == [] then [] else (if steps[0].Submit? then [steps[0]] else []) + Submits(steps[1..])
  }

  lemma {:induction false} SubmitsAreSubmissions(steps: seq<SendStep>)
    ensures forall k :: 0 <= k < |Submits(steps)| ==> Submits(steps)[k].Submit?
    decreases |steps|
  {
    if steps != [] {
      SubmitsAreSubmissions(steps[1..]);
    }
  }

  /** The message is for the recipient and has the text of the submission. */
  predicate Conveys(c: Chat, step: SendStep) { step.Submit? && c.dest == step.dest && c.body == step.body }

  lemma NextAsked(s: Sender, step: SendStep)
    requires Inv(s)
    ensures !step.Submit? ==> Next(s, step).asked == s.asked
    ensures step.Submit? ==>
              && |Next(s, step).asked| == |s.asked| + 1 && s.asked <= Next(s, step).asked
              && Conveys(Next(s, step).asked[|s.asked|], step)
  {
    if step.Flush? {
      QueueIsAsked(s);
      FlushKeepsInv(s, s.queue, |s.queue|, step.dest, step.marks, step.attempts);
    }
  }

  /** A run asks for exactly its submissions, one message each, in their order. */
  lemma {:induction false} AskedIsSubmitted(s: Sender, steps: seq<SendStep>)
    requires Inv(s)
    ensures |Run(s, steps).asked| == |s.asked| + |Submits(steps)| && s.asked <= Run(s, steps).asked
    ensures forall k :: 0 <= k < |Submits(steps)| ==> Conveys(Run(s, steps).asked[|s.asked| + k], Submits(steps)[k])
    decreases |steps|
  {
    if steps != [] {
      var s', rest := Next(s, steps[0]), steps[1..];
      NextAsked(s, steps[0]);
      NextKeepsInv(s, steps[0]);
      AskedIsSubmitted(s', rest);
      var asked := Run(s, steps).asked;
      forall k | 0 <= k < |Submits(steps)| ensures Conveys(asked[|s.asked| + k], Submits(steps)[k]) {
        if steps[0].Submit? {
          if k == 0 {
            assert asked[|s.asked|] == s'.asked[|s.asked|];
          } else {
            assert Conveys(asked[|s'.asked| + (k - 1)], Submits(rest)[k - 1]);
          }
        }
      }
    }
  }

  /**
    Whatever a run writes, gives to a callback or keeps queued has the recipient and the text
    of the submission that its origin names.
   */
  lemma MessagesConveySubmissions(jid: string, device: string, steps: seq<SendStep>, c: Chat)
    requires var s := Run(NewSender(jid, device), steps); c in s.wire || c in s.called || c in ChatSet(s.queue)
    ensures c.origin < |Submits(steps)| && Conveys(c, Submits(steps)[c.origin])
  {
    var s := Run(NewSender(jid, device), steps);
    RunKeepsInv(NewSender(jid, device), steps);
    AskedIsSubmitted(NewSender(jid, device), steps);
    AskedAtOrigin(s, c);
    assert Conveys(s.asked[c.origin], Submits(steps)[c.origin]);
  }

  lemma AskedAtOrigin(s: Sender, c: Chat)
    requires Inv(s) && c in s.asked
    ensures c.origin < |s.asked| && s.asked[c.origin] == c
  {
    var k :| 0 <= k < |s.asked| && s.asked[k] == c;
    assert Attested(s, k);
  }

  /**
    In every run with fewer than 2^64 mints, all IDs minted, for messages or for packets of
    any other kind, are pairwise distinct, and so are the IDs of the messages.
   */
  lemma IdsPairwiseDistinct(jid: string, device: string, steps: seq<SendStep>)
    requires Run(NewSender(jid, device), steps).count < SEQ_MODULUS
    ensures var s := Run(NewSender(jid, device), steps);
            && (forall i, j :: 0 <= i < j < |s.minted| ==> s.minted[i] != s.minted[j])
            && (forall i, j :: 0 <= i < j < |s.asked| ==> s.asked[i].id != s.asked[j].id)
  {
    RunKeepsInv(NewSender(jid, device), steps);
    var s := Run(NewSender(jid, device), steps);
    forall i, j | 0 <= i < j < |s.minted| ensures s.minted[i] != s.minted[j] {
      if s.minted[i] == s.minted[j] {
        MintsDistinct(s, i, j);
      }
    }
    forall i, j | 0 <= i < j < |s.asked| ensures s.asked[i].id != s.asked[j].id {
      if s.asked[i].id == s.asked[j].id {
        IdsIdentify(s, i, j);
      }
    }
  }

  // ---------------------------------------------------------------------------
  // The queue: bounded, without repetitions, and apart from what has left it.
  // ---------------------------------------------------------------------------

  ghost predicate DistinctIds(items: seq<Outgoing>) {
    forall i, j :: 0 <= i < j < |items| ==> items[i].chat.id != items[j].chat.id
  }

  /** No queued message has been written or given away. */
  ghost predicate Apart(s: Sender) {
    forall c :: c in ChatSet(s.queue) ==> c !in s.wire && c !in s.called
  }

  ghost predicate Tidy(s: Sender) {
    Inv(s) && DistinctIds(s.queue) && Apart(s) && |s.queue| <= MAX_MESSAGES
  }

  lemma {:induction false} RemovedDistinct(items: seq<Outgoing>, id: string)
    requires DistinctIds(items)
    ensures DistinctIds(Removed(items, id)) && |Removed(items, id)| <= |items|
    ensures forall m :: m in Removed(items, id) ==> m in items
  {
    if items != [] {
      var init, last := items[..|items| - 1], items[|items| - 1];
      RemovedDistinct(init, id);
      forall m | m in Removed(init, id) ensures m.chat.id != last.chat.id {
        assert m in init;
      }
    }
  }

  lemma FlushOneKeepsTidy(s: Sender, m: Outgoing, dest: string, marks: bool, attempt: Attempt)
    requires Tidy(s) && m.chat in s.asked && FlushedOne(s, m, dest, marks, attempt).count < SEQ_MODULUS
    ensures Tidy(FlushedOne(s, m, dest, marks, attempt))
  {
    FlushOneKeepsInv(s, m, dest, marks, attempt);
    FlushOneChats(s, m, dest, marks, attempt);
    RemovedDistinct(Tallied(s.queue, m.chat.id, marks), m.chat.id);
  }

  lemma {:induction false} FlushKeepsTidy(
    s: Sender, pending: seq<Outgoing>, n: nat, dest: string, marks: bool, attempts: nat -> Attempt)
    requires Tidy(s) && n <= |pending| && Asked(s, pending)
    requires Flushed(s, pending, n, dest, marks, attempts).count < SEQ_MODULUS
    ensures Tidy(Flushed(s, pending, n, dest, marks, attempts))
  {
    if n > 0 {
      FlushKeepsTidy(s, pending, n - 1, dest, marks, attempts);
      FlushKeepsInv(s, pending, n - 1, dest, marks, attempts);
      FlushOneKeepsTidy(Flushed(s, pending, n - 1, dest, marks, attempts), pending[n - 1], dest, marks, attempts(n - 1));
    }
  }

  /** The message a submission creates is none of the earlier ones, nor is its ID. */
  lemma SubmitIsNew(s: Sender, dest: string, body: string, write: Option<Stamp>, stamp: Stamp, c: Chat)
    requires Inv(s) && Submitted(s, dest, body, write, stamp).count < SEQ_MODULUS && c in s.asked
    ensures c.id != Submitted(s, dest, body, write, stamp).asked[|s.asked|].id
  {
    var s' := Submitted(s, dest, body, write, stamp);
    SubmitKeepsNumbers(s, dest, body, write, stamp);
    var p :| 0 <= p < |s.asked| && s.asked[p] == c;
    assert s'.asked[p] == c;
    if c.id == s'.asked[|s.asked|].id {
      IdsIdentify(s', p, |s.asked|);
    }
  }

  lemma EnqueuedDistinct(items: seq<Outgoing>, m: Outgoing)
    requires DistinctIds(items) && forall i :: 0 <= i < |items| ==> items[i].chat.id != m.chat.id
    ensures DistinctIds(Enqueued(items, m))
    ensures |items| <= MAX_MESSAGES ==> |Enqueued(items, m)| <= MAX_MESSAGES
  {
  }

  lemma SubmitKeepsTidy(s: Sender, dest: string, body: string, write: Option<Stamp>, stamp: Stamp)
    requires Tidy(s) && Submitted(s, dest, body, write, stamp).count < SEQ_MODULUS
    ensures Tidy(Submitted(s, dest, body, write, stamp))
  {
    var s' := Submitted(s, dest, body, write, stamp);
    var new_ := s'.asked[|s.asked|];
    SubmitKeepsInv(s, dest, body, write, stamp);
    QueueIsAsked(s);
    forall c | c in s.asked ensures c.id != new_.id {
      SubmitIsNew(s, dest, body, write, stamp, c);
    }
    EnqueuedDistinct(s.queue, Outgoing(new_, 0));
    NewStaysApart(s, s', new_);
  }

  lemma NewStaysApart(s: Sender, s': Sender, new_: Chat)
    requires Apart(s) && OnlyAsked(s) && new_ !in s.asked && s'.called == s.called
    requires || (s'.queue == s.queue && s'.wire == s.wire + [new_])
             || (s'.queue == Enqueued(s.queue, Outgoing(new_, 0)) && s'.wire == s.wire)
    ensures Apart(s')
  {
    EnqueuedChats(s.queue, Outgoing(new_, 0));
  }

  lemma NextKeepsTidy(s: Sender, step: SendStep)
    requires Tidy(s) && Next(s, step).count < SEQ_MODULUS
    ensures Tidy(Next(s, step))
  {
    match step
    case Submit(dest, body, write, stamp) => SubmitKeepsTidy(s, dest, body, write, stamp);
    case Flush(dest, marks, attempts) =>
      QueueIsAsked(s);
      FlushKeepsTidy(s, s.queue, |s.queue|, dest, marks, attempts);
    case MintOther(stamp) => MintKeepsNumbers(s, stamp);
  }

  /**
    In every run the queue stays within its cap, its IDs are pairwise distinct and none of
    its messages has been sent.
   */
  lemma {:induction false} QueueStaysTidy(s: Sender, steps: seq<SendStep>)
    requires Tidy(s) && Run(s, steps).count < SEQ_MODULUS
    ensures Tidy(Run(s, steps))
    decreases |steps|
  {
    if steps != [] {
      NextKeepsInv(s, steps[0]);
      RunKeepsInv(Next(s, steps[0]), steps[1..]);
      NextKeepsTidy(s, steps[0]);
      QueueStaysTidy(Next(s, steps[0]), steps[1..]);
    }
  }

  lemma {:induction false} RemovedShorter(items: seq<Outgoing>, id: string)
    ensures |Removed(items, id)| <= |items|
  {
    if items != [] {
      RemovedShorter(items[..|items| - 1], id);
    }
  }

  lemma {:induction false} FlushShortens(
    s: Sender, pending: seq<Outgoing>, n: nat, dest: string, marks: bool, attempts: nat -> Attempt)
    requires n <= |pending|
    ensures |Flushed(s, pending, n, dest, marks, attempts).queue| <= |s.queue|
  {
    if n > 0 {
      FlushShortens(s, pending, n - 1, dest, marks, attempts);
      var before := Flushed(s, pending, n - 1, dest, marks, attempts);
      RemovedShorter(Tallied(before.queue, pending[n - 1].chat.id, marks), pending[n - 1].chat.id);
    }
  }

  /** The queue never holds more than its cap, even after the counter has wrapped. */
  lemma {:induction false} QueueBounded(s: Sender, steps: seq<SendStep>)
    requires |s.queue| <= MAX_MESSAGES
    ensures |Run(s, steps).queue| <= MAX_MESSAGES
    decreases |steps|
  {
    if steps != [] {
      if steps[0].Flush? {
        FlushShortens(s, s.queue, |s.queue|, steps[0].dest, steps[0].marks, steps[0].attempts);
      }
      QueueBounded(Next(s, steps[0]), steps[1..]);
    }
  }

  lemma NewIsTidy(jid: string, device: string)
    ensures Tidy(NewSender(jid, device))
  {
  }

  // ---------------------------------------------------------------------------
  // Nothing is lost on the sender, except to the cap.
  // ---------------------------------------------------------------------------

  /** The message was written, given to a callback, or is still queued. */
  ghost predicate Accounted(s: Sender, c: Chat) {
    c in s.wire || c in s.called || c in ChatSet(s.queue)
  }

  /** An offline submission meets a full queue. */
  predicate Overflows(s: Sender, step: SendStep) {
    step.Submit? && step.write.None? && |s.queue| >= MAX_MESSAGES
  }

  /**
    A submission keeps every earlier message, unless the peer is offline and the queue is
    full: then the oldest queued message is gone.
   */
  lemma SubmitLosesOnlyAtCap(s: Sender, dest: string, body: string, write: Option<Stamp>, stamp: Stamp, c: Chat)
    requires |s.queue| <= MAX_MESSAGES && Accounted(s, c)
    ensures var s' := Submitted(s, dest, body, write, stamp);
            && Accounted(s', s'.asked[|s.asked|])
            && (!Accounted(s', c) ==> write.None? && |s.queue| == MAX_MESSAGES && c == s.queue[0].chat)
  {
    var s' := Submitted(s, dest, body, write, stamp);
    EnqueuedChats(s.queue, Outgoing(s'.asked[|s.asked|], 0));
  }

  /** And then it is gone indeed. */
  lemma SubmitDropsOldest(s: Sender, dest: string, body: string, stamp: Stamp)
    requires Tidy(s) && Submitted(s, dest, body, None, stamp).count < SEQ_MODULUS && |s.queue| == MAX_MESSAGES
    ensures Accounted(s, s.queue[0].chat) && !Accounted(Submitted(s, dest, body, None, stamp), s.queue[0].chat)
  {
    var s', c := Submitted(s, dest, body, None, stamp), s.queue[0].chat;
    assert c in ChatSet(s.queue);
    EnqueuedChats(s.queue, Outgoing(s'.asked[|s.asked|], 0));
    SubmitIsNew(s, dest, body, None, stamp, c);
    assert c !in ChatSet(s.queue[1..]);
  }

  lemma FlushOneKeepsAccount(s: Sender, m: Outgoing, dest: string, marks: bool, attempt: Attempt, c: Chat)
    requires Inv(s) && m.chat in s.asked && FlushedOne(s, m, dest, marks, attempt).count < SEQ_MODULUS
    requires c in s.asked
    ensures Accounted(s, c) ==> Accounted(FlushedOne(s, m, dest, marks, attempt), c)
    ensures c != m.chat && !Accounted(s, c) ==> !Accounted(FlushedOne(s, m, dest, marks, attempt), c)
  {
    FlushOneChats(s, m, dest, marks, attempt);
    if c.id == m.chat.id {
      SameIdSameChat(s, c, m.chat);
    }
  }

  /** A flush, whatever becomes of its attempts, loses no message and brings none back. */
  lemma {:induction false} FlushLosesNothing(
    s: Sender, pending: seq<Outgoing>, n: nat, dest: string, marks: bool, attempts: nat -> Attempt, c: Chat)
    requires Inv(s) && n <= |pending| && Asked(s, pending) && c in s.asked
    requires Flushed(s, pending, n, dest, marks, attempts).count < SEQ_MODULUS
    ensures Accounted(s, c) ==> Accounted(Flushed(s, pending, n, dest, marks, attempts), c)
    ensures !Accounted(s, c) && c !in ChatSet(pending) ==> !Accounted(Flushed(s, pending, n, dest, marks, attempts), c)
  {
    if n > 0 {
      FlushKeepsInv(s, pending, n - 1, dest, marks, attempts);
      var before := Flushed(s, pending, n - 1, dest, marks, attempts);
      FlushLosesNothing(s, pending, n - 1, dest, marks, attempts, c);
      FlushOneKeepsAccount(before, pending[n - 1], dest, marks, attempts(n - 1), c);
      assert pending[n - 1].chat in ChatSet(pending);
    }
  }

  /** A step loses a message exactly if it overflows the queue, and brings none back. */
  lemma StepAccounts(s: Sender, step: SendStep, c: Chat)
    requires Tidy(s) && Next(s, step).count < SEQ_MODULUS && c in s.asked
    ensures Accounted(s, c) ==>
              (Accounted(Next(s, step), c) <==> !(Overflows(s, step) && c == s.queue[0].chat))
    ensures !Accounted(s, c) ==> !Accounted(Next(s, step), c)
  {
    match step
    case Submit(dest, body, write, stamp) =>
      var s' := Next(s, step);
      SubmitIsNew(s, dest, body, write, stamp, c);
      EnqueuedChats(s.queue, Outgoing(s'.asked[|s.asked|], 0));
      if Accounted(s, c) {
        SubmitLosesOnlyAtCap(s, dest, body, write, stamp, c);
      }
      if Overflows(s, step) {
        SubmitDropsOldest(s, dest, body, stamp);
      }
    case Flush(dest, marks, attempts) =>
      QueueIsAsked(s);
      FlushLosesNothing(s, s.queue, |s.queue|, dest, marks, attempts, c);
    case MintOther(_) =>
  }

  /** Every message the sender was asked to send is accounted for. */
  ghost predicate AllAccounted(s: Sender) {
    forall c :: c in s.asked ==> Accounted(s, c)
  }

  /** No offline submission of the run meets a full queue. */
  predicate NeverOverflows(s: Sender, steps: seq<SendStep>)
    decreases |steps|
  {
    steps == [] || (!Overflows(s, steps[0]) && NeverOverflows(Next(s, steps[0]), steps[1..]))
  }

  lemma StepKeepsAllAccounted(s: Sender, step: SendStep)
    requires Tidy(s) && Next(s, step).count < SEQ_MODULUS && AllAccounted(s) && !Overflows(s, step)
    ensures AllAccounted(Next(s, step))
  {
    var s' := Next(s, step);
    if step.Flush? {
      QueueIsAsked(s);
      FlushKeepsInv(s, s.queue, |s.queue|, step.dest, step.marks, step.attempts);
    }
    forall c | c in s'.asked ensures Accounted(s', c) {
      if c in s.asked {
        StepAccounts(s, step, c);
      } else {
        EnqueuedChats(s.queue, Outgoing(c, 0));
      }
    }
  }

  lemma {:induction false} RunKeepsAllAccounted(s: Sender, steps: seq<SendStep>)
    requires Tidy(s) && Run(s, steps).count < SEQ_MODULUS && AllAccounted(s) && NeverOverflows(s, steps)
    ensures AllAccounted(Run(s, steps))
    decreases |steps|
  {
    if steps != [] {
      NextKeepsInv(s, steps[0]);
      RunKeepsInv(Next(s, steps[0]), steps[1..]);
      NextKeepsTidy(s, steps[0]);
      StepKeepsAllAccounted(s, steps[0]);
      RunKeepsAllAccounted(Next(s, steps[0]), steps[1..]);
    }
  }

  /** A lost message stays lost. */
  lemma {:induction false} LostForGood(s: Sender, steps: seq<SendStep>, c: Chat)
    requires Tidy(s) && Run(s, steps).count < SEQ_MODULUS && c in s.asked && !Accounted(s, c)
    ensures c in Run(s, steps).asked && !Accounted(Run(s, steps), c)
    decreases |steps|
  {
    if steps != [] {
      NextKeepsInv(s, steps[0]);
      RunKeepsInv(Next(s, steps[0]), steps[1..]);
      NextKeepsTidy(s, steps[0]);
      StepAccounts(s, steps[0], c);
      LostForGood(Next(s, steps[0]), steps[1..], c);
    }
  }

  lemma OverflowLosesOldest(s: Sender, step: SendStep)
    requires Tidy(s) && Next(s, step).count < SEQ_MODULUS && Overflows(s, step)
    ensures s.queue[0].chat in Next(s, step).asked && !Accounted(Next(s, step), s.queue[0].chat)
  {
    assert s.queue[0].chat in ChatSet(s.queue);
    StepAccounts(s, step, s.queue[0].chat);
  }

  lemma {:induction false} OverflowLosesForGood(s: Sender, steps: seq<SendStep>) returns (c: Chat)
    requires Tidy(s) && Run(s, steps).count < SEQ_MODULUS && !NeverOverflows(s, steps)
    ensures c in Run(s, steps).asked && !Accounted(Run(s, steps), c)
    decreases |steps|
  {
    NextKeepsInv(s, steps[0]);
    RunKeepsInv(Next(s, steps[0]), steps[1..]);
    NextKeepsTidy(s, steps[0]);
    if Overflows(s, steps[0]) {
      c := s.queue[0].chat;
      OverflowLosesOldest(s, steps[0]);
      LostForGood(Next(s, steps[0]), steps[1..], c);
    } else {
      c := OverflowLosesForGood(Next(s, steps[0]), steps[1..]);
    }
  }

  /**
    Nothing is lost, exactly.  At the end of a run each message ever asked for has been
    written, given to a callback or is still queued if and only if no offline submission
    of the run met a full queue.
   */
  lemma RunLosesNothingIff(jid: string, device: string, steps: seq<SendStep>)
    requires Run(NewSender(jid, device), steps).count < SEQ_MODULUS
    ensures AllAccounted(Run(NewSender(jid, device), steps)) <==> NeverOverflows(NewSender(jid, device), steps)
  {
    NewIsTidy(jid, device);
    if NeverOverflows(NewSender(jid, device), steps) {
      RunKeepsAllAccounted(NewSender(jid, device), steps);
    } else {
      var c := OverflowLosesForGood(NewSender(jid, device), steps);
    }
  }

  /** n submissions to a peer that is not connected. */
  function OfflineSubmissions(n: nat): seq<SendStep> {
    if n == 0 then [] else [Submit("peer", "", None, Stamp(0, ""))] + OfflineSubmissions(n - 1)
  }

  lemma {:induction false} OfflineFills(s: Sender, n: nat)
    requires |s.queue| <= MAX_MESSAGES
    ensures Run(s, OfflineSubmissions(n)).count == s.count + n
    ensures NeverOverflows(s, OfflineSubmissions(n)) <==> |s.queue| + n <= MAX_MESSAGES
    decreases n
  {
    if n > 0 {
      var steps := OfflineSubmissions(n);
      assert steps[1..] == OfflineSubmissions(n - 1);
      OfflineFills(Next(s, steps[0]), n - 1);
    }
  }

  /** An input that loses a message: 1001 submissions while the peer is offline. */
  lemma OverflowExample(jid: string, device: string)
    ensures Run(NewSender(jid, device), OfflineSubmissions(1001)).count == 1001
    ensures AllAccounted(Run(NewSender(jid, device), OfflineSubmissions(1000)))
    ensures !AllAccounted(Run(NewSender(jid, device), OfflineSubmissions(1001)))
  {
    OfflineFills(NewSender(jid, device), 1000);
    RunLosesNothingIff(jid, device, OfflineSubmissions(1000));
    OfflineFills(NewSender(jid, device), 1001);
    RunLosesNothingIff(jid, device, OfflineSubmissions(1001));
  }

  // ---------------------------------------------------------------------------
  // A flush sends in the order of the queue.
  // ---------------------------------------------------------------------------

  /** The messages for `dest` among the first n whose resend succeeded, in queue order. */
  function SentFor(items: seq<Outgoing>, n: nat, dest: string, attempts: nat -> Attempt): seq<Chat>
    requires n <= |items|
  {
    if n == 0 then []
    else
      SentFor(items, n - 1, dest, attempts)
      + (if items[n - 1].chat.dest == dest && attempts(n - 1).Sent? then [items[n - 1].chat] else [])
  }

  function Tally(m: Outgoing, marks: bool): Outgoing {
    if marks then m.(attempts := m.attempts + 1) else m
  }

  /** What is left of the first n: other peers' messages as they were, failed ones counted. */
  function LeftOver(items: seq<Outgoing>, n: nat, dest: string, marks: bool, attempts: nat -> Attempt): seq<Outgoing>
    requires n <= |items|
  {
    if n == 0 then []
    else
      var m := items[n - 1];
      LeftOver(items, n - 1, dest, marks, attempts)
      + (if m.chat.dest != dest then [m] else if attempts(n - 1).Failed? then [Tally(m, marks)] else [])
  }

  /** No message of the list has this ID. */
  ghost predicate Lacks(items: seq<Outgoing>, id: string) {
    forall x :: x in items ==> x.chat.id != id
  }

  lemma {:induction false} LeftOverLacks(
    items: seq<Outgoing>, n: nat, dest: string, marks: bool, attempts: nat -> Attempt, id: string)
    requires n <= |items| && forall k :: 0 <= k < n ==> items[k].chat.id != id
    ensures Lacks(LeftOver(items, n, dest, marks, attempts), id)
  {
    if n > 0 {
      LeftOverLacks(items, n - 1, dest, marks, attempts, id);
    }
  }

  lemma {:induction false} RemovedAbsent(items: seq<Outgoing>, id: string)
    requires Lacks(items, id)
    ensures Removed(items, id) == items
  {
    if items != [] {
      RemovedAbsent(items[..|items| - 1], id);
    }
  }

  lemma {:induction false} RemovedConcat(first: seq<Outgoing>, second: seq<Outgoing>, id: string)
    ensures Removed(first + second, id) == Removed(first, id) + Removed(second, id)
    decreases |second|
  {
    if second == [] {
      assert first + second == first;
    } else {
      var n := |second| - 1;
      assert (first + second)[..|first| + n] == first + second[..n];
      RemovedConcat(first, second[..n], id);
    }
  }

  lemma TalliedOne(before: seq<Outgoing>, m: Outgoing, after: seq<Outgoing>, marks: bool)
    requires Lacks(before, m.chat.id) && Lacks(after, m.chat.id)
    ensures Tallied(before + [m] + after, m.chat.id, marks) == before + ([Tally(m, marks)] + after)
  {
  }

  lemma RemovedSingle(m: Outgoing)
    ensures Removed([m], m.chat.id) == []
  {
  }

  /** Marking and removing the one message with this ID leaves the others alone. */
  lemma MarkAndRemove(before: seq<Outgoing>, m: Outgoing, after: seq<Outgoing>, marks: bool)
    requires Lacks(before, m.chat.id) && Lacks(after, m.chat.id)
    ensures Removed(Tallied(before + [m] + after, m.chat.id, marks), m.chat.id) == before + after
  {
    var id, marked := m.chat.id, Tally(m, marks);
    TalliedOne(before, m, after, marks);
    RemovedConcat(before, [marked] + after, id);
    RemovedConcat([marked], after, id);
    RemovedAbsent(before, id);
    RemovedAbsent(after, id);
    RemovedSingle(marked);
  }

  /** The state of a flush that has worked through the first n messages. */
  ghost predicate FlushedInOrder(s: Sender, s': Sender, n: nat, dest: string, marks: bool, attempts: nat -> Attempt)
    requires n <= |s.queue|
  {
    && s'.wire == s.wire + SentFor(s.queue, n, dest, attempts)
    && s'.queue == LeftOver(s.queue, n, dest, marks, attempts) + s.queue[n..]
  }

  /** What one attempt leaves of a queue in which the message's ID is unique. */
  lemma FlushOneQueue(s: Sender, before: seq<Outgoing>, m: Outgoing, after: seq<Outgoing>, marks: bool, attempt: Attempt)
    requires s.queue == before + [m] + after && Lacks(before, m.chat.id) && Lacks(after, m.chat.id)
    ensures FlushedOne(s, m, m.chat.dest, marks, attempt).queue ==
            before + (if attempt.Failed? then [Tally(m, marks)] else []) + after
  {
    if attempt.Failed? {
      TalliedOne(before, m, after, marks);
    } else {
      MarkAndRemove(before, m, after, marks);
    }
  }

  lemma TailLacks(items: seq<Outgoing>, n: nat)
    requires DistinctIds(items) && n < |items|
    ensures Lacks(items[n + 1..], items[n].chat.id)
  {
  }

  lemma FlushOneInOrder(s: Sender, s': Sender, n: nat, dest: string, marks: bool, attempts: nat -> Attempt)
    requires DistinctIds(s.queue) && n < |s.queue| && FlushedInOrder(s, s', n, dest, marks, attempts)
    ensures FlushedInOrder(s, FlushedOne(s', s.queue[n], dest, marks, attempts(n)), n + 1, dest, marks, attempts)
  {
    var m, rest, before := s.queue[n], s.queue[n + 1..], LeftOver(s.queue, n, dest, marks, attempts);
    assert s'.queue == before + [m] + rest by {
      assert s.queue[n..] == [m] + rest;
    }
    if m.chat.dest == dest {
      LeftOverLacks(s.queue, n, dest, marks, attempts, m.chat.id);
      TailLacks(s.queue, n);
      FlushOneQueue(s', before, m, rest, marks, attempts(n));
    }
  }

  lemma FlushStartsInOrder(s: Sender, dest: string, marks: bool, attempts: nat -> Attempt)
    ensures FlushedInOrder(s, s, 0, dest, marks, attempts)
  {
  }

  lemma FlushNextInOrder(s: Sender, k: nat, next: nat, dest: string, marks: bool, attempts: nat -> Attempt)
    requires DistinctIds(s.queue) && k < |s.queue| && next == k + 1
    requires FlushedInOrder(s, Flushed(s, s.queue, k, dest, marks, attempts), k, dest, marks, attempts)
    ensures FlushedInOrder(s, Flushed(s, s.queue, next, dest, marks, attempts), next, dest, marks, attempts)
  {
    FlushOneInOrder(s, Flushed(s, s.queue, k, dest, marks, attempts), k, dest, marks, attempts);
  }

  lemma {:induction false} FlushPrefixInOrder(s: Sender, n: nat, dest: string, marks: bool, attempts: nat -> Attempt)
    requires DistinctIds(s.queue) && n <= |s.queue|
    ensures FlushedInOrder(s, Flushed(s, s.queue, n, dest, marks, attempts), n, dest, marks, attempts)
  {
    if n == 0 {
      FlushStartsInOrder(s, dest, marks, attempts);
    } else {
      var k: nat :| k + 1 == n;
      FlushPrefixInOrder(s, k, dest, marks, attempts);
      FlushNextInOrder(s, k, n, dest, marks, attempts);
    }
  }

  /**
    Whatever attempts succeed: the messages sent go out in queue order, and the queue keeps
    the failed ones and those of other peers, in order.
   */
  lemma FlushSendsInOrder(s: Sender, dest: string, marks: bool, attempts: nat -> Attempt)
    requires DistinctIds(s.queue)
    ensures var s', n := Flushed(s, s.queue, |s.queue|, dest, marks, attempts), |s.queue|;
            && s'.wire == s.wire + SentFor(s.queue, n, dest, attempts)
            && s'.queue == LeftOver(s.queue, n, dest, marks, attempts)
  {
    FlushPrefixInOrder(s, |s.queue|, dest, marks, attempts);
  }

  /** Earlier submissions come first. */
  ghost predicate Ascending(chats: seq<Chat>) {
    forall i, j :: 0 <= i < j < |chats| ==> chats[i].origin < chats[j].origin
  }

  function ChatsOf(items: seq<Outgoing>): seq<Chat> {
    seq(|items|, i requires 0 <= i < |items| => items[i].chat)
  }

  /** The queue is in the order of the submissions, all of them asked for. */
  ghost predicate QueueInOrder(s: Sender) {
    Ascending(ChatsOf(s.queue)) && forall i :: 0 <= i < |s.queue| ==> s.queue[i].chat.origin < |s.asked|
  }

  lemma {:induction false} RemovedAscending(items: seq<Outgoing>, id: string)
    requires Ascending(ChatsOf(items))
    ensures Ascending(ChatsOf(Removed(items, id)))
    ensures forall m :: m in Removed(items, id) ==> m in items
  {
    if items != [] {
      var init, last := items[..|items| - 1], items[|items| - 1];
      assert ChatsOf(init) == ChatsOf(items)[..|items| - 1];
      RemovedAscending(init, id);
      var rest := Removed(init, id);
      forall i | 0 <= i < |rest| ensures rest[i].chat.origin < last.chat.origin {
        assert rest[i] in init;
        var k :| 0 <= k < |init| && init[k] == rest[i];
        assert ChatsOf(items)[k].origin < ChatsOf(items)[|items| - 1].origin;
      }
      AscendingAppend(ChatsOf(rest), last.chat);
      assert ChatsOf(rest + [last]) == ChatsOf(rest) + [last.chat];
    }
  }

  lemma AscendingAppend(chats: seq<Chat>, c: Chat)
    requires Ascending(chats) && forall i :: 0 <= i < |chats| ==> chats[i].origin < c.origin
    ensures Ascending(chats + [c])
  {
  }

  lemma EnqueuedAscending(items: seq<Outgoing>, m: Outgoing)
    requires Ascending(ChatsOf(items)) && forall i :: 0 <= i < |items| ==> items[i].chat.origin < m.chat.origin
    ensures Ascending(ChatsOf(Enqueued(items, m)))
    ensures forall i :: 0 <= i < |Enqueued(items, m)| ==> Enqueued(items, m)[i].chat.origin <= m.chat.origin
  {
    var from := if |items| < MAX_MESSAGES then 0 else |items| + 1 - MAX_MESSAGES;
    AscendingAppend(ChatsOf(items), m.chat);
    assert ChatsOf(Enqueued(items, m)) == (ChatsOf(items) + [m.chat])[from..];
  }

  lemma TalliedInOrder(items: seq<Outgoing>, id: string, marks: bool)
    ensures ChatsOf(Tallied(items, id, marks)) == ChatsOf(items)
  {
  }

  lemma FlushOneKeepsOrder(s: Sender, m: Outgoing, dest: string, marks: bool, attempt: Attempt)
    requires QueueInOrder(s)
    ensures QueueInOrder(FlushedOne(s, m, dest, marks, attempt))
    ensures FlushedOne(s, m, dest, marks, attempt).asked == s.asked
  {
    var items := Tallied(s.queue, m.chat.id, marks);
    TalliedInOrder(s.queue, m.chat.id, marks);
    RemovedAscending(items, m.chat.id);
    forall x | x in items ensures x.chat.origin < |s.asked| {
      var k :| 0 <= k < |items| && items[k] == x;
      assert ChatsOf(items)[k] == ChatsOf(s.queue)[k];
    }
  }

  lemma {:induction false} FlushKeepsOrder(
    s: Sender, pending: seq<Outgoing>, n: nat, dest: string, marks: bool, attempts: nat -> Attempt)
    requires QueueInOrder(s) && n <= |pending|
    ensures QueueInOrder(Flushed(s, pending, n, dest, marks, attempts))
  {
    if n > 0 {
      FlushKeepsOrder(s, pending, n - 1, dest, marks, attempts);
      FlushOneKeepsOrder(Flushed(s, pending, n - 1, dest, marks, attempts), pending[n - 1], dest, marks, attempts(n - 1));
    }
  }

  lemma SubmitKeepsOrder(s: Sender, dest: string, body: string, write: Option<Stamp>, stamp: Stamp)
    requires QueueInOrder(s)
    ensures QueueInOrder(Submitted(s, dest, body, write, stamp))
  {
    EnqueuedAscending(s.queue, Outgoing(Chat(NewId(s, stamp), dest, body, |s.asked|), 0));
  }

  lemma {:induction false} QueueStaysInOrder(s: Sender, steps: seq<SendStep>)
    requires QueueInOrder(s)
    ensures QueueInOrder(Run(s, steps))
    decreases |steps|
  {
    if steps != [] {
      match steps[0] {
        case Submit(dest, body, write, stamp) => SubmitKeepsOrder(s, dest, body, write, stamp);
        case Flush(dest, marks, attempts) => FlushKeepsOrder(s, s.queue, |s.queue|, dest, marks, attempts);
        case MintOther(_) =>
      }
      QueueStaysInOrder(Next(s, steps[0]), steps[1..]);
    }
  }

  lemma {:induction false} SentAscending(items: seq<Outgoing>, n: nat, dest: string, attempts: nat -> Attempt)
    requires Ascending(ChatsOf(items)) && n <= |items|
    ensures Ascending(SentFor(items, n, dest, attempts))
    ensures forall c :: c in SentFor(items, n, dest, attempts) ==> exists k :: 0 <= k < n && items[k].chat == c
  {
    if n > 0 {
      SentAscending(items, n - 1, dest, attempts);
      var before := SentFor(items, n - 1, dest, attempts);
      forall i | 0 <= i < |before| ensures before[i].origin < items[n - 1].chat.origin {
        assert before[i] in before;
        var k :| 0 <= k < n - 1 && items[k].chat == before[i];
        assert ChatsOf(items)[k].origin < ChatsOf(items)[n - 1].origin;
      }
    }
  }

  /** In every run, what a flush sends goes out in the order of submission. */
  lemma FlushSendsInSubmissionOrder(
    jid: string, device: string, steps: seq<SendStep>, dest: string, marks: bool, attempts: nat -> Attempt)
    requires Run(NewSender(jid, device), steps).count < SEQ_MODULUS
    ensures var s := Run(NewSender(jid, device), steps);
            var sent := SentFor(s.queue, |s.queue|, dest, attempts);
            Flushed(s, s.queue, |s.queue|, dest, marks, attempts).wire == s.wire + sent && Ascending(sent)
  {
    var s := Run(NewSender(jid, device), steps);
    NewIsTidy(jid, device);
    QueueStaysTidy(NewSender(jid, device), steps);
    QueueStaysInOrder(NewSender(jid, device), steps);
    FlushSendsInOrder(s, dest, marks, attempts);
    SentAscending(s.queue, |s.queue|, dest, attempts);
  }

  // ---------------------------------------------------------------------------
  // The receiver.
  // ---------------------------------------------------------------------------

  /** What stands between the replay check and the application for one packet. */
  datatype Gates = Gates(withinRate: bool, sessionReady: bool, senderBlocked: bool, opens: bool) {
    predicate Pass() { withinRate && sessionReady && !senderBlocked && opens }
  }

  class Receiver {
    const seen: Dedup.Seen
    /** What was handed to the application. */
    var handed: seq<Chat>

    constructor ()
      ensures fresh(seen) && seen.Valid() && seen.ids == map[] && handed == []
      ensures seen.max == 10000 && seen.ttl == 3_600_000_000_000
    {
      seen := new Dedup.Seen(10000, Dedup.HOUR);
      handed := [];
    }

    /** The chat case of handleMessage.  The replay check comes first, before rate limiting. */
    method HandleChat(c: Chat, now: Dedup.Time, gates: Gates) returns (accepted: bool, delivered: bool)
      requires seen.Valid()
      modifies this, seen
      ensures seen.Valid()
      ensures Dedup.AddStep(seen.max, seen.ttl, old(seen.ids), c.id, now, seen.ids, accepted)
      ensures delivered <==> accepted && gates.Pass()
      ensures handed == old(handed) + (if delivered then [c] else [])
    {
      delivered := false;
      accepted := seen.Add(c.id, now);
      if !accepted || !gates.withinRate || !gates.sessionReady || gates.senderBlocked || !gates.opens {
        return;
      }
      handed := handed + [c];
      delivered := true;
    }
  }

  /**
    Where a packet comes from: a chat of the sender under study, a packet of another kind
    of the same sender under the ID of that mint, or somebody else.
   */
  datatype Source = OwnChat(chat: Chat) | OwnOther(mint: nat) | Foreign

  /**
    A history of the receiver's store.  Call k of the store belongs to the packet
    packets[k], and handed[k] says whether a chat reached the application.
   */
  datatype Reception = Reception(store: Dedup.Run, packets: seq<Source>, handed: seq<bool>) {

    ghost predicate Legal() {
      && store.Legal()
      && |packets| == |handed| == |store.calls|
      && forall k :: 0 <= k < |packets| && packets[k].OwnChat? ==>
           && store.calls[k] == Dedup.Add(packets[k].chat.id, store.calls[k].now)
           && (handed[k] ==> store.results[k])
    }

    /**
      The network only carries what the sender wrote, in any order and any number; a packet
      of another kind has an ID that was not minted for a submission.
     */
    ghost predicate From(s: Sender)
      requires |packets| == |store.calls|
    {
      && (forall k :: 0 <= k < |packets| && packets[k].OwnChat? ==> packets[k].chat in s.wire)
      && (forall k :: 0 <= k < |packets| && packets[k].OwnOther? ==>
            && packets[k].mint < |s.minted| && packets[k].mint + 1 !in s.counts
            && store.calls[k].id == s.minted[packets[k].mint])
    }

    /** Nobody else uses an ID of this sender. */
    ghost predicate Unforged(s: Sender)
      requires |packets| == |store.calls|
    {
      forall k :: 0 <= k < |packets| && packets[k].Foreign? ==> store.calls[k].id !in s.minted
    }

    /** The store let chat packet k through. */
    predicate Admitted(k: int)
      requires |packets| == |store.results|
    {
      0 <= k < |packets| && packets[k].OwnChat? && store.results[k]
    }

    predicate Handed(k: int)
      requires |packets| == |handed|
    {
      0 <= k < |packets| && packets[k].OwnChat? && handed[k]
    }

    /** Packet k is the first one of its submission that the store let through. */
    predicate FirstAdmitted(k: int)
      requires |packets| == |store.results|
    {
      Admitted(k) && forall j :: 0 <= j < k && Admitted(j) ==> packets[j].chat.origin != packets[k].chat.origin
    }

    /** The replay window of call i is not over at any call before n. */
    ghost predicate WindowOpen(i: nat, n: nat)
      requires store.Legal() && i < n <= |store.calls|
    {
      forall j :: i < j < n ==> store.calls[j].now - store.calls[i].now <= store.ttl && |store.Others(i, j)| < store.max
    }
  }

  lemma WireIdNonEmpty(s: Sender, c: Chat)
    requires Inv(s) && c in s.wire
    ensures c.id != "" && c.origin < |s.asked| && s.asked[c.origin] == c
    ensures c.origin < |s.counts| && 0 < s.counts[c.origin] <= |s.minted| && c.id == s.minted[s.counts[c.origin] - 1]
  {
    var k :| 0 <= k < |s.asked| && s.asked[k] == c;
    assert Attested(s, k);
    var n := s.counts[k] - 1;
    assert Genuine(s, n);
    MintedNonEmpty(c.id, s.jid, s.device, SeqNumber(n + 1));
  }

  lemma MintedNonEmpty(id: string, jid: string, device: string, n: nat)
    requires MintedAs(id, jid, device, n)
    ensures id != ""
  {
    var nano: int, rand: string :| id == EnvelopeId(jid, device, n, nano, rand);
    EnvelopeIdNonEmpty(jid, device, n, nano, rand);
  }

  /**
    At most once.  Let any run of the sender submit, flush and resend, and let the network
    repeat and reorder what was sent.  If two packets that go back to the same submission
    get past the replay check, as they must to reach the application, then they are the same
    packet, the one minted at submission, and more than ttl passed in between or the store's
    capacity was used up by other IDs.
   */
  lemma AtMostOnceDelivery(jid: string, device: string, steps: seq<SendStep>, r: Reception, i: nat, j: nat)
    requires r.Legal() && r.From(Run(NewSender(jid, device), steps))
    requires i < j && r.Admitted(i) && r.Admitted(j) && r.packets[i].chat.origin == r.packets[j].chat.origin
    ensures var s := Run(NewSender(jid, device), steps);
            var k := r.packets[i].chat.origin;
            && k < |s.asked| && r.packets[i].chat == r.packets[j].chat == s.asked[k]
            && k < |Submits(steps)| && Conveys(r.packets[i].chat, Submits(steps)[k])
    ensures r.store.calls[j].now - r.store.calls[i].now > r.store.ttl || |r.store.Others(i, j)| >= r.store.max
  {
    var s := Run(NewSender(jid, device), steps);
    RunKeepsInv(NewSender(jid, device), steps);
    WireIdNonEmpty(s, r.packets[i].chat);
    WireIdNonEmpty(s, r.packets[j].chat);
    MessagesConveySubmissions(jid, device, steps, r.packets[i].chat);
    assert r.store.Accepted(i) && r.store.Accepted(j);
    Dedup.ReplayWindow(r.store, i, j);
  }

  /**
    Delivery, exactly.  While the replay window of the first admitted packet of a submission
    is open, the submission reaches the application if and only if that very packet does:
    when it is throttled or cannot be opened, no retry helps.
   */
  lemma DeliveredIffFirstIs(jid: string, device: string, steps: seq<SendStep>, r: Reception, i: nat, n: nat)
    requires r.Legal() && r.From(Run(NewSender(jid, device), steps))
    requires i < n <= |r.packets| && r.FirstAdmitted(i) && r.WindowOpen(i, n)
    ensures (exists j :: 0 <= j < n && r.Handed(j) && r.packets[j].chat.origin == r.packets[i].chat.origin) <==> r.Handed(i)
  {
    forall j | 0 <= j < n && r.Handed(j) && r.packets[j].chat.origin == r.packets[i].chat.origin ensures j == i {
      assert r.Admitted(j);
      if i < j {
        AtMostOnceDelivery(jid, device, steps, r, i, j);
      }
    }
  }

  /** A packet arrives twice; the first time it is throttled, the second time it is a replay. */
  function ThrottledTwice(c: Chat): Reception {
    var ids: Dedup.Ids := map[c.id := 0];
    Reception(
      Dedup.Run(10000, Dedup.HOUR, [map[], ids, ids], [Dedup.Add(c.id, 0), Dedup.Add(c.id, 1)], [true, false]),
      [OwnChat(c), OwnChat(c)], [false, false])
  }

  /**
    An input that is never delivered: the message is submitted to a connected peer and its
    first packet throttled.  The second is dropped by the replay check, which comes first.
   */
  lemma ThrottledIsNeverDelivered(jid: string, device: string, dest: string, body: string, write: Stamp, stamp: Stamp)
    ensures var steps := [Submit(dest, body, Some(write), stamp)];
            var s := Run(NewSender(jid, device), steps);
            && |s.wire| == 1
            && var r := ThrottledTwice(s.wire[0]);
               && r.Legal() && r.From(s) && r.FirstAdmitted(0) && r.WindowOpen(0, 2)
               && !r.store.results[1] && !r.Handed(0) && !r.Handed(1)
  {
    var step := Submit(dest, body, Some(write), stamp);
    var s := Run(NewSender(jid, device), [step]);
    assert s == Run(Next(NewSender(jid, device), step), []);
    RunKeepsInv(NewSender(jid, device), [step]);
    WireIdNonEmpty(s, s.wire[0]);
    ThrottledIsLegal(s.wire[0]);
  }

  lemma ThrottledIsLegal(c: Chat)
    requires c.id != ""
    ensures ThrottledTwice(c).Legal() && ThrottledTwice(c).WindowOpen(0, 2)
  {
    var run := ThrottledTwice(c).store;
    assert Dedup.Step(run.max, run.ttl, run.states[0], run.calls[0], run.states[1], run.results[0]);
    assert Dedup.Step(run.max, run.ttl, run.states[1], run.calls[1], run.states[2], run.results[1]);
    assert run.Others(0, 1) == {};
  }

  /**
    Nothing but a replay is dropped.  When the store refuses a chat, an earlier accepted
    call carried the same ID.  That call was not a packet of another kind of this sender,
    and if it was a chat of this sender, it was the same one.  So unless somebody else uses
    this sender's IDs, a chat is refused only because of itself.
   */
  lemma OnlyReplaysDropped(jid: string, device: string, steps: seq<SendStep>, r: Reception, j: nat)
    requires Run(NewSender(jid, device), steps).count < SEQ_MODULUS
    requires r.Legal() && r.From(Run(NewSender(jid, device), steps))
    requires j < |r.packets| && r.packets[j].OwnChat? && !r.store.results[j]
    ensures exists i :: 0 <= i < j && r.store.Accepted(i) && r.store.calls[i].id == r.packets[j].chat.id
                        && (r.packets[i].Foreign? || r.packets[i] == r.packets[j])
                        && (r.Unforged(Run(NewSender(jid, device), steps)) ==> r.packets[i] == r.packets[j])
  {
    RunKeepsInv(NewSender(jid, device), steps);
    var i := RefusedBecause(r.store, j);
    SameIdSamePacket(Run(NewSender(jid, device), steps), r, i, j);
  }

  /** A call with the ID of a chat is that chat, or somebody else's. */
  lemma SameIdSamePacket(s: Sender, r: Reception, i: nat, j: nat)
    requires Inv(s) && s.count < SEQ_MODULUS && r.Legal() && r.From(s)
    requires i < |r.packets| && j < |r.packets| && r.packets[j].OwnChat? && r.store.calls[i].id == r.packets[j].chat.id
    ensures r.packets[i].Foreign? || r.packets[i] == r.packets[j]
    ensures r.Unforged(s) ==> r.packets[i] == r.packets[j]
  {
    var c := r.packets[j].chat;
    WireIdNonEmpty(s, c);
    match r.packets[i] {
      case OwnChat(d) => SameIdSameChat(s, c, d);
      case OwnOther(n) => OtherIdsDiffer(s, c, n);
      case Foreign => assert c.id in s.minted;
    }
  }

  /** A refused ID goes back to an accepted call. */
  lemma RefusedBecause(run: Dedup.Run, j: nat) returns (i: nat)
    requires run.Legal() && j < |run.calls| && run.calls[j].Add? && !run.results[j]
    ensures i < j && run.Accepted(i) && run.calls[i].id == run.calls[j].id
  {
    assert Dedup.Step(run.max, run.ttl, run.states[j], run.calls[j], run.states[j + 1], run.results[j]);
    Dedup.AlwaysExplained(run, j);
    var k :| 0 <= k < j && run.Accepted(k) && run.calls[k].id == run.calls[j].id
             && run.calls[k].now == run.states[j][run.calls[j].id];
    i := k;
  }

  /** An ID minted for another kind of packet is not that of a chat. */
  lemma OtherIdsDiffer(s: Sender, c: Chat, n: nat)
    requires Inv(s) && s.count < SEQ_MODULUS && c in s.wire && n < |s.minted| && n + 1 !in s.counts
    ensures c.id != s.minted[n]
  {
    WireIdNonEmpty(s, c);
    if c.id == s.minted[n] {
      MintsDistinct(s, n, s.counts[c.origin] - 1);
    }
  }
}
