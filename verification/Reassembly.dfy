/**
  What the file transfer is for: whatever the order, the duplicates and the restarts,
  a file that gets saved is the file that was sent, and one resume round completes it.
 */
module Reassembly {
  import opened Basics
  import opened Text
  import opened FileTransfer

  // ---------------------------------------------------------------------------
  // The chunks partition the file.
  // ---------------------------------------------------------------------------

  /** The chunks of the sequential reader, concatenated. */
  function Contents(pieces: seq<Piece>): Bytes {
    if pieces == [] then []
    else Contents(pieces[..|pieces| - 1]) + pieces[|pieces| - 1].data
  }

  /** A chunk continues the file where the chunks before it end. */
  lemma ChunkContinues(file: Bytes, n: nat)
    requires n > 0
    ensures file[..Offset(file, n - 1)] + ChunkAt(file, n - 1) == file[..Offset(file, n)]
  {
  }

  lemma {:induction false} PrefixContents(file: Bytes, n: nat)
    requires n <= INT64_MAX
    ensures Contents(Pieces(file, n)) == file[..Offset(file, n)]
  {
    if n > 0 {
      assert Pieces(file, n)[..n - 1] == Pieces(file, n - 1);
      PrefixContents(file, n - 1);
      ChunkContinues(file, n);
    }
  }

  /** Every chunk but the last is full, none is empty, and together they are the file. */
  lemma ChunksPartitionFile(file: Bytes)
    requires ChunkCount(|file|) <= INT64_MAX
    ensures Contents(Pieces(file, ChunkCount(|file|))) == file
    ensures forall i :: 0 <= i < ChunkCount(|file|) ==> 0 < |ChunkAt(file, i)| <= CHUNK_SIZE
    ensures forall i :: 0 <= i < ChunkCount(|file|) - 1 ==> |ChunkAt(file, i)| == 65536
  {
    var n := ChunkCount(|file|);
    PrefixContents(file, n);
    assert Offset(file, n) == |file|;
    assert file[..|file|] == file;
  }

  // ---------------------------------------------------------------------------
  // Counting chunks.
  // ---------------------------------------------------------------------------

  ghost function Below(n: nat): set<Index>
    requires n <= INT64_MAX
  {
    if n == 0 then {} else Below(n - 1) + {n - 1}
  }

  lemma {:induction false} BelowMeaning(n: nat)
    requires n <= INT64_MAX
    ensures forall i: Index :: i in Below(n) <==> 0 <= i < n
  {
    if n > 0 {
      BelowMeaning(n - 1);
    }
  }

  lemma BelowStep(n: nat, last: Index)
    requires 0 < n <= INT64_MAX && last == n - 1
    ensures Below(n) == Below(n - 1) + {last} && last !in Below(n - 1)
  {
    BelowMeaning(n - 1);
  }

  lemma {:induction false} MissingMeaning(x: Inbox, n: nat)
    requires n <= INT64_MAX
    ensures forall i: Index :: i in MissingBelow(x, n) <==> 0 <= i < n && i !in x.chunks
  {
    if n > 0 {
      MissingMeaning(x, n - 1);
    }
  }

  lemma KeptStep(keys: set<Index>, below: set<Index>, last: Index)
    requires last !in below
    ensures |keys * (below + {last})| == |keys * below| + (if last in keys then 1 else 0)
  {
    if last in keys {
      assert keys * (below + {last}) == keys * below + {last};
    } else {
      assert keys * (below + {last}) == keys * below;
    }
  }

  lemma KeptNone(keys: set<Index>)
    ensures |keys * Below(0)| == 0
  {
  }

  /** How many of the keys are below n, counted one by one. */
  ghost function Kept(keys: set<Index>, n: nat): nat
    requires n <= INT64_MAX
  {
    if n == 0 then 0 else Kept(keys, n - 1) + (if n - 1 in keys then 1 else 0)
  }

  lemma {:induction false} KeptIsCardinality(keys: set<Index>, n: nat)
    requires n <= INT64_MAX
    ensures Kept(keys, n) == |keys * Below(n)|
  {
    if n == 0 {
      KeptNone(keys);
    } else {
      var last: Index := n - 1;
      KeptIsCardinality(keys, n - 1);
      BelowStep(n, last);
      KeptStep(keys, Below(n - 1), last);
    }
  }

  lemma {:induction false} MissingCount(x: Inbox, n: nat)
    requires n <= INT64_MAX
    ensures Kept(x.chunks.Keys, n) + |MissingBelow(x, n)| == n
  {
    if n > 0 {
      MissingCount(x, n - 1);
    }
  }

  /** Indexes stored outside the announced range; the receiver does not check it. */
  ghost function Strays(x: Inbox): set<Index> {
    set i | i in x.chunks && !(0 <= i < x.total)
  }

  /**
    IsComplete, exactly: the transfer counts as complete if and only if there are at
    least as many stray chunks as missing ones.
   */
  lemma CompleteIffStraysCoverMissing(x: Inbox)
    requires Consistent(x)
    ensures Complete(x) <==> |Strays(x)| >= |Missing(x)|
    ensures Strays(x) == {} ==> (Complete(x) <==> Missing(x) == [])
  {
    if x.total > 0 {
      var inside := x.chunks.Keys * Below(x.total);
      BelowMeaning(x.total);
      assert x.chunks.Keys == inside + Strays(x);
      assert inside !! Strays(x);
      MissingCount(x, x.total);
      KeptIsCardinality(x.chunks.Keys, x.total);
    }
  }

  /** One stray chunk is enough to report a transfer complete that cannot be saved. */
  lemma StrayChunkFoolsComplete()
    ensures var x := Stored(NewInbox(1), 7, []);
            Consistent(x) && Complete(x) && Missing(x) == [0] && Saved(x) == None
  {
  }

  // ---------------------------------------------------------------------------
  // Runs of the receiver.
  // ---------------------------------------------------------------------------

  /** A chunk arrives, or the receiver restarts from its checkpoint. */
  datatype Event = Arrive(piece: Piece) | Restart

  ghost predicate Step(x: Inbox, e: Event, x': Inbox) {
    match e
    case Arrive(p) => x' == Stored(x, p.index, p.data)
    case Restart =>
      exists disk: Snapshot ::
        && disk.total == x.total && Encodes(Decimal(), disk.entries, x.chunks)
        && Canonical(Decimal(), disk.entries) && x' == RestoredFrom(Decimal(), disk)
  }

  ghost predicate Run(states: seq<Inbox>, events: seq<Event>) {
    && |states| == |events| + 1
    && forall k {:trigger events[k]} :: 0 <= k < |events| ==> Step(states[k], events[k], states[k + 1])
  }

  ghost predicate HonestPiece(file: Bytes, p: Piece) {
    0 <= p.index < ChunkCount(|file|) && p.data == ChunkAt(file, p.index)
  }

  /** Every chunk that arrives is one the sender's readers produce. */
  ghost predicate Honest(file: Bytes, events: seq<Event>) {
    forall k :: 0 <= k < |events| && events[k].Arrive? ==> HonestPiece(file, events[k].piece)
  }

  /** The chunks stored are chunks of the file. */
  ghost predicate HonestChunks(file: Bytes, total: Index, chunks: map<Index, Bytes>) {
    forall i :: i in chunks ==> 0 <= i < total && chunks[i] == ChunkAt(file, i)
  }

  ghost predicate Faithful(file: Bytes, x: Inbox) {
    x.total == ChunkCount(|file|) && Consistent(x) && HonestChunks(file, x.total, x.chunks)
  }

  lemma PutKeepsHonest(file: Bytes, total: Index, chunks: map<Index, Bytes>, p: Piece)
    requires HonestChunks(file, total, chunks) && HonestPiece(file, p) && total == ChunkCount(|file|)
    ensures HonestChunks(file, total, chunks[p.index := p.data])
  {
    var more := chunks[p.index := p.data];
    forall i | i in more ensures 0 <= i < total && more[i] == ChunkAt(file, i) {
      if i != p.index {
        assert i in chunks && more[i] == chunks[i];
      }
    }
  }

  lemma ArrivalKeepsFaithful(file: Bytes, x: Inbox, p: Piece)
    requires Faithful(file, x) && HonestPiece(file, p)
    ensures Faithful(file, Stored(x, p.index, p.data))
    ensures Stored(x, p.index, p.data).chunks.Keys == x.chunks.Keys + {p.index}
  {
    StoredConsistent(x, p.index, p.data);
    PutKeepsHonest(file, x.total, x.chunks, p);
  }

  /** A restart changes nothing. */
  lemma RestartIsIdentity(x: Inbox, x': Inbox)
    requires Consistent(x) && Step(x, Restart, x')
    ensures x' == x
  {
    var disk: Snapshot :|
      && disk.total == x.total && Encodes(Decimal(), disk.entries, x.chunks)
      && Canonical(Decimal(), disk.entries) && x' == RestoredFrom(Decimal(), disk);
    DecimalIsExact();
    RestoreInvertsCheckpoint(Decimal(), x, disk);
  }

  lemma StepKeepsFaithful(file: Bytes, x: Inbox, e: Event, x': Inbox)
    requires Faithful(file, x) && Step(x, e, x')
    requires e.Arrive? ==> HonestPiece(file, e.piece)
    ensures Faithful(file, x')
    ensures x'.chunks.Keys == x.chunks.Keys + (if e.Arrive? then {e.piece.index} else {})
  {
    if e.Arrive? {
      ArrivalKeepsFaithful(file, x, e.piece);
    } else {
      RestartIsIdentity(x, x');
    }
  }

  ghost predicate Arrived(events: seq<Event>, i: Index) {
    exists k :: 0 <= k < |events| && events[k].Arrive? && events[k].piece.index == i
  }

  lemma {:induction false} RunKeepsFaithful(file: Bytes, states: seq<Inbox>, events: seq<Event>, k: nat)
    requires ChunkCount(|file|) <= INT64_MAX
    requires Run(states, events) && Honest(file, events) && k <= |events|
    requires states[0] == NewInbox(ChunkCount(|file|))
    ensures Faithful(file, states[k])
    ensures ArrivedExactly(events[..k], states[k].chunks.Keys)
  {
    if k == 0 {
      NewIsFaithful(file);
    } else {
      RunKeepsFaithful(file, states, events, k - 1);
      assert Step(states[k - 1], events[k - 1], states[k]);
      StepKeepsFaithful(file, states[k - 1], events[k - 1], states[k]);
      ArrivedGrows(events, k, states[k - 1].chunks.Keys, states[k].chunks.Keys);
    }
  }

  lemma NewIsFaithful(file: Bytes)
    requires ChunkCount(|file|) <= INT64_MAX
    ensures Faithful(file, NewInbox(ChunkCount(|file|)))
  {
  }

  /** The stored indexes are those that arrived. */
  ghost predicate ArrivedExactly(events: seq<Event>, indexes: set<Index>) {
    forall i: Index :: i in indexes <==> Arrived(events, i)
  }

  lemma ArrivedGrows(events: seq<Event>, k: nat, before: set<Index>, after: set<Index>)
    requires 0 < k <= |events| && ArrivedExactly(events[..k - 1], before)
    requires after == before + (if events[k - 1].Arrive? then {events[k - 1].piece.index} else {})
    ensures ArrivedExactly(events[..k], after)
  {
    forall i: Index ensures i in after <==> Arrived(events[..k], i) {
      ArrivedStep(events, k, i);
    }
  }

  lemma ArrivedStep(events: seq<Event>, k: nat, i: Index)
    requires 0 < k <= |events|
    ensures Arrived(events[..k], i) <==>
            Arrived(events[..k - 1], i) || (events[k - 1].Arrive? && events[k - 1].piece.index == i)
  {
  }

  // ---------------------------------------------------------------------------
  // Reassembly.
  // ---------------------------------------------------------------------------

  lemma {:induction false} AssembledPrefix(file: Bytes, x: Inbox, n: nat)
    requires Faithful(file, x) && n <= x.total
    requires forall i: Index :: 0 <= i < n ==> i in x.chunks
    ensures Assembled(x, n) == Some(file[..Offset(file, n)])
  {
    if n > 0 {
      AssembledPrefix(file, x, n - 1);
      ChunkContinues(file, n);
    }
  }

  /** The map holds exactly the first n chunks of the file. */
  ghost predicate HoldsPrefix(file: Bytes, m: map<Index, Bytes>, n: nat)
    requires n <= INT64_MAX
  {
    m.Keys == Below(n) && forall i :: i in m ==> 0 <= i && m[i] == ChunkAt(file, i)
  }

  lemma PrefixWithoutLast(file: Bytes, m: map<Index, Bytes>, n: nat, last: Index)
    requires 0 < n <= INT64_MAX && last == n - 1 && HoldsPrefix(file, m, n)
    ensures last in m && m[last] == ChunkAt(file, n - 1) && HoldsPrefix(file, m - {last}, n - 1)
  {
    BelowStep(n, last);
  }

  lemma ChunkLength(file: Bytes, i: nat)
    ensures |ChunkAt(file, i)| == Offset(file, i + 1) - Offset(file, i)
  {
  }

  lemma {:induction false} BytesOfPrefix(file: Bytes, m: map<Index, Bytes>, n: nat)
    requires n <= INT64_MAX && HoldsPrefix(file, m, n)
    ensures TotalLen(m) == Offset(file, n)
  {
    if n == 0 {
      assert m == map[];
    } else {
      var last: Index := n - 1;
      PrefixWithoutLast(file, m, n, last);
      TotalLenRemove(m, last);
      ChunkLength(file, n - 1);
      BytesOfPrefix(file, m - {last}, n - 1);
    }
  }

  lemma FullMeansSaved(file: Bytes, x: Inbox)
    requires Faithful(file, x) && Complete(x) && forall i: Index :: 0 <= i < x.total ==> i in x.chunks
    ensures Saved(x) == Some(file) && x.bytes == |file|
  {
    BelowMeaning(x.total);
    assert x.chunks.Keys == Below(x.total);
    AssembledPrefix(file, x, x.total);
    BytesOfPrefix(file, x.chunks, x.total);
    assert Offset(file, x.total) == |file| && file[..|file|] == file;
  }

  lemma NothingMissingIff(x: Inbox)
    requires x.total >= 0
    ensures Missing(x) == [] <==> (forall i: Index :: 0 <= i < x.total ==> i in x.chunks)
  {
    MissingMeaning(x, x.total);
    if Missing(x) == [] {
      forall i: Index | 0 <= i < x.total ensures i in x.chunks {
        assert i !in Missing(x);
      }
    } else {
      assert Missing(x)[0] in Missing(x);
    }
  }

  /** A faithful transfer that has every chunk saves the file, byte for byte. */
  lemma SavedMeaning(file: Bytes, x: Inbox)
    requires Faithful(file, x)
    ensures Complete(x) <==> Missing(x) == []
    ensures Missing(x) == [] <==> (forall i: Index :: 0 <= i < x.total ==> i in x.chunks)
    ensures Complete(x) ==> Saved(x) == Some(file) && x.bytes == |file|
    ensures !Complete(x) ==> Saved(x) == None
  {
    assert Strays(x) == {};
    CompleteIffStraysCoverMissing(x);
    NothingMissingIff(x);
    if Complete(x) {
      FullMeansSaved(file, x);
    }
  }

  /**
    Reassembly.  Over every run of honest chunk arrivals and restarts, in any order
    and with any duplicates, the save succeeds if and only if every index arrived at
    least once, and then what is written is the file that was sent.
   */
  lemma ReassemblyOfEveryRun(file: Bytes, states: seq<Inbox>, events: seq<Event>)
    requires ChunkCount(|file|) <= INT64_MAX
    requires Run(states, events) && Honest(file, events)
    requires states[0] == NewInbox(ChunkCount(|file|))
    ensures var x := states[|events|];
            && (Saved(x).Some? <==> forall i: Index :: 0 <= i < ChunkCount(|file|) ==> Arrived(events, i))
            && (Saved(x).Some? ==> Saved(x) == Some(file) && x.bytes == |file|)
            && (Saved(x).Some? <==> Missing(x) == [])
  {
    RunKeepsFaithful(file, states, events, |events|);
    assert events[..|events|] == events;
    SavedMeaning(file, states[|events|]);
  }

  // ---------------------------------------------------------------------------
  // Resume.
  // ---------------------------------------------------------------------------

  lemma {:induction false} RepliesCover(file: Bytes, wanted: seq<Index>, seen: set<Index>, i: Index)
    requires i in wanted && i !in seen && 0 <= i < ChunkCount(|file|)
    ensures Piece(i, ChunkAt(file, i)) in Replies(file, wanted, seen)
    decreases |wanted|
  {
    if wanted[0] != i {
      if wanted[0] in seen {
        RepliesCover(file, wanted[1..], seen, i);
      } else {
        RepliesCover(file, wanted[1..], seen + {wanted[0]}, i);
      }
    }
  }

  lemma {:induction false} RepliesOnlyWanted(file: Bytes, wanted: seq<Index>, seen: set<Index>, p: Piece)
    requires p in Replies(file, wanted, seen)
    ensures HonestPiece(file, p) && p.index in wanted && p.index !in seen
    decreases |wanted|
  {
    if wanted[0] in seen {
      RepliesOnlyWanted(file, wanted[1..], seen, p);
    } else if p in Replies(file, wanted[1..], seen + {wanted[0]}) {
      RepliesOnlyWanted(file, wanted[1..], seen + {wanted[0]}, p);
    }
  }

  /** Where an index is first mentioned. */
  function FirstMention(wanted: seq<Index>, i: Index): nat
    decreases |wanted|
  {
    if wanted == [] || wanted[0] == i then 0 else 1 + FirstMention(wanted[1..], i)
  }

  /** Replies follow the first mentions of their indexes. */
  ghost predicate InMentionOrder(pieces: seq<Piece>, wanted: seq<Index>) {
    forall a, b :: 0 <= a < b < |pieces| ==>
      FirstMention(wanted, pieces[a].index) < FirstMention(wanted, pieces[b].index)
  }

  lemma OrderBehind(pieces: seq<Piece>, wanted: seq<Index>)
    requires wanted != [] && InMentionOrder(pieces, wanted[1..])
    requires forall p :: p in pieces ==> p.index != wanted[0]
    ensures InMentionOrder(pieces, wanted)
  {
    forall a, b | 0 <= a < b < |pieces|
      ensures FirstMention(wanted, pieces[a].index) < FirstMention(wanted, pieces[b].index)
    {
      assert pieces[a] in pieces && pieces[b] in pieces;
    }
  }

  lemma OrderWithFirst(p: Piece, pieces: seq<Piece>, wanted: seq<Index>)
    requires wanted != [] && p.index == wanted[0] && InMentionOrder(pieces, wanted)
    requires forall q :: q in pieces ==> q.index != wanted[0]
    ensures InMentionOrder([p] + pieces, wanted)
  {
    forall b | 0 <= b < |pieces| ensures FirstMention(wanted, pieces[b].index) > 0 {
      assert pieces[b] in pieces;
    }
  }

  lemma {:induction false} RepliesInOrder(file: Bytes, wanted: seq<Index>, seen: set<Index>)
    ensures InMentionOrder(Replies(file, wanted, seen), wanted)
    decreases |wanted|
  {
    if wanted != [] {
      var first := wanted[0];
      var rest := Replies(file, wanted[1..], seen + {first});
      RepliesInOrder(file, wanted[1..], seen + {first});
      forall p | p in rest ensures p.index != first {
        RepliesOnlyWanted(file, wanted[1..], seen + {first}, p);
      }
      OrderBehind(rest, wanted);
      if first in seen {
        assert seen + {first} == seen;
      } else if 0 <= first < ChunkCount(|file|) {
        OrderWithFirst(Piece(first, ChunkAt(file, first)), rest, wanted);
      } else {
        assert [] + rest == rest;
      }
    }
  }

  /**
    What a resend replies: exactly the requested indexes in range, with their chunks, each
    once and in the order in which they were first mentioned.
   */
  lemma RepliesMeaning(file: Bytes, wanted: seq<Index>)
    ensures var r := Replies(file, wanted, {});
            && (forall p :: p in r <==> HonestPiece(file, p) && p.index in wanted)
            && (forall a, b :: 0 <= a < b < |r| ==> r[a].index != r[b].index)
            && InMentionOrder(r, wanted)
  {
    RepliesInOrder(file, wanted, {});
    var r := Replies(file, wanted, {});
    forall p ensures p in r <==> HonestPiece(file, p) && p.index in wanted {
      if p in r {
        RepliesOnlyWanted(file, wanted, {}, p);
      }
      if HonestPiece(file, p) && p.index in wanted {
        RepliesCover(file, wanted, {}, p.index);
      }
    }
  }

  /** The missing indexes are listed in ascending order. */
  lemma {:induction false} MissingAscends(x: Inbox, n: nat)
    requires n <= INT64_MAX
    ensures forall a, b :: 0 <= a < b < |MissingBelow(x, n)| ==> MissingBelow(x, n)[a] < MissingBelow(x, n)[b]
  {
    if n > 0 {
      MissingAscends(x, n - 1);
      MissingMeaning(x, n - 1);
      var before := MissingBelow(x, n - 1);
      forall a | 0 <= a < |before| ensures before[a] < n - 1 {
        assert before[a] in before;
      }
    }
  }

  function StoredAll(x: Inbox, pieces: seq<Piece>): Inbox
    decreases |pieces|
  {
    if pieces == [] then x
    else StoredAll(Stored(x, pieces[0].index, pieces[0].data), pieces[1..])
  }

  lemma {:induction false} StoredAllFaithful(file: Bytes, x: Inbox, pieces: seq<Piece>)
    requires Faithful(file, x)
    requires forall p :: p in pieces ==> HonestPiece(file, p)
    ensures Faithful(file, StoredAll(x, pieces))
    ensures forall i :: i in x.chunks ==> i in StoredAll(x, pieces).chunks
    ensures forall p :: p in pieces ==> p.index in StoredAll(x, pieces).chunks
    decreases |pieces|
  {
    if pieces != [] {
      ArrivalKeepsFaithful(file, x, pieces[0]);
      StoredAllFaithful(file, Stored(x, pieces[0].index, pieces[0].data), pieces[1..]);
    }
  }

  /**
    Resume.  From any faithful partial state, hand the sender the missing indexes and
    store its replies, in any order and mixed with any other honest chunks: nothing is
    missing any more and the file can be saved.  The replies name only missing chunks.
   */
  lemma ResumeCompletes(file: Bytes, x: Inbox, arriving: seq<Piece>)
    requires Faithful(file, x)
    requires forall p :: p in arriving ==> HonestPiece(file, p)
    requires forall p :: p in Replies(file, Missing(x), {}) ==> p in arriving
    ensures var x' := StoredAll(x, arriving);
            Missing(x') == [] && Saved(x') == Some(file) && x'.bytes == |file|
    ensures forall p :: p in Replies(file, Missing(x), {}) ==> p.index !in x.chunks
  {
    StoredAllFaithful(file, x, arriving);
    ResumeFillsGaps(file, x, arriving);
    SavedMeaning(file, StoredAll(x, arriving));
    MissingMeaning(x, x.total);
    forall p | p in Replies(file, Missing(x), {}) ensures p.index !in x.chunks {
      RepliesOnlyWanted(file, Missing(x), {}, p);
    }
  }

  lemma ResumeFillsGaps(file: Bytes, x: Inbox, arriving: seq<Piece>)
    requires Faithful(file, x)
    requires forall p :: p in arriving ==> HonestPiece(file, p)
    requires forall p :: p in Replies(file, Missing(x), {}) ==> p in arriving
    ensures forall i: Index :: 0 <= i < x.total ==> i in StoredAll(x, arriving).chunks
  {
    StoredAllFaithful(file, x, arriving);
    forall i: Index | 0 <= i < x.total ensures i in StoredAll(x, arriving).chunks {
      if i !in x.chunks {
        MissingMeaning(x, x.total);
        RepliesCover(file, Missing(x), {}, i);
        assert Piece(i, ChunkAt(file, i)) in arriving;
      }
    }
  }

  /**
    Resume after any run: whatever arrived, in whatever order and across whatever
    restarts, one round of requesting and resending completes the file.
   */
  lemma ResumeAfterEveryRun(file: Bytes, states: seq<Inbox>, events: seq<Event>, arriving: seq<Piece>)
    requires ChunkCount(|file|) <= INT64_MAX
    requires Run(states, events) && Honest(file, events)
    requires states[0] == NewInbox(ChunkCount(|file|))
    requires forall p :: p in arriving ==> HonestPiece(file, p)
    requires forall p :: p in Replies(file, Missing(states[|events|]), {}) ==> p in arriving
    ensures var x := StoredAll(states[|events|], arriving);
            Missing(x) == [] && Saved(x) == Some(file) && x.bytes == |file|
  {
    RunKeepsFaithful(file, states, events, |events|);
    ResumeCompletes(file, states[|events|], arriving);
  }
}
