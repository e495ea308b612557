/**
  Chunked file transfer with resume: a sequential reader, a random-access reader, a
  receiver that tolerates duplicates and any order, and a checkpoint on disk.
  The source file is stable and a read yields a full chunk unless it meets the end.
 */
module FileTransfer {
  import opened Basics
  import opened Text

  type Bytes = seq<bv8>

  /** A Go int, as chunk indexes travel in messages and checkpoints. */
  type Index = i: int | INT64_MIN <= i <= INT64_MAX

  const CHUNK_SIZE: nat := 65536

  function Min(x: int, y: int): int { if x < y then x else y }

  function ChunkCount(size: nat): nat { (size + CHUNK_SIZE - 1) / CHUNK_SIZE }

  /** Where chunk i starts, or the end of the file. */
  function Offset(file: Bytes, i: nat): nat { Min(i * CHUNK_SIZE, |file|) }

  function ChunkAt(file: Bytes, i: nat): Bytes { file[Offset(file, i)..Offset(file, i + 1)] }

  /** A chunk on the wire. */
  datatype Piece = Piece(index: Index, data: Bytes)

  /** The first n chunks in order, as the sequential reader yields them. */
  function Pieces(file: Bytes, n: nat): seq<Piece>
    requires n <= INT64_MAX
  {
    seq(n, i requires 0 <= i < n => Piece(i, ChunkAt(file, i)))
  }

  /** What the resend loop replays: each requested index once, if it is in range. */
  function Replies(file: Bytes, wanted: seq<Index>, seen: set<Index>): seq<Piece>
    decreases |wanted|
  {
    if wanted == [] then []
    else if wanted[0] in seen then Replies(file, wanted[1..], seen)
    else
      (if 0 <= wanted[0] < ChunkCount(|file|) then [Piece(wanted[0], ChunkAt(file, wanted[0]))] else [])
      + Replies(file, wanted[1..], seen + {wanted[0]})
  }

  // ---------------------------------------------------------------------------
  // The receiver.
  // ---------------------------------------------------------------------------

  /** A receive transfer: the chunk map with the counters kept beside it. */
  datatype Inbox = Inbox(total: Index, chunks: map<Index, Bytes>, received: int, bytes: int)

  function NewInbox(total: Index): Inbox { Inbox(total, map[], 0, 0) }

  function Stored(x: Inbox, index: Index, data: Bytes): Inbox {
    if index in x.chunks then x
    else Inbox(x.total, x.chunks[index := data], x.received + 1, x.bytes + |data|)
  }

  predicate Complete(x: Inbox) { x.received >= x.total }

  function MissingBelow(x: Inbox, n: nat): seq<Index>
    requires n <= INT64_MAX
  {
    if n == 0 then []
    else MissingBelow(x, n - 1) + (if n - 1 in x.chunks then [] else [n - 1])
  }

  function Missing(x: Inbox): seq<Index> {
    if x.total <= 0 then [] else MissingBelow(x, x.total)
  }

  /** The chunks below n in order, when none is missing. */
  function Assembled(x: Inbox, n: nat): Option<Bytes>
    requires n <= INT64_MAX
  {
    if n == 0 then Some([])
    else match Assembled(x, n - 1)
      case None => None
      case Some(before) => if n - 1 in x.chunks then Some(before + x.chunks[n - 1]) else None
  }

  /** SaveFile: the bytes written, or an error. */
  function Saved(x: Inbox): Option<Bytes> {
    if !Complete(x) then None
    else if x.total <= 0 then Some([])
    else Assembled(x, x.total)
  }

  // ---------------------------------------------------------------------------
  // Sums over chunk maps.
  // ---------------------------------------------------------------------------

  ghost function TotalLen<K>(m: map<K, Bytes>): nat
    decreases |m|
  {
    if m == map[] then 0
    else
      var k :| k in m;
      assert |m.Keys - {k}| < |m.Keys| && (m - {k}).Keys == m.Keys - {k};
      |m[k]| + TotalLen(m - {k})
  }

  lemma {:induction false} TotalLenRemove<K>(m: map<K, Bytes>, k: K)
    requires k in m
    ensures |m - {k}| == |m| - 1
    ensures TotalLen(m) == |m[k]| + TotalLen(m - {k})
    decreases |m|
  {
    assert (m - {k}).Keys == m.Keys - {k};
    var j :| j in m && TotalLen(m) == |m[j]| + TotalLen(m - {j});
    if j != k {
      assert (m - {j}).Keys == m.Keys - {j};
      TotalLenRemove(m - {j}, k);
      TotalLenRemove(m - {k}, j);
      assert m - {j} - {k} == m - {k} - {j};
    }
  }

  lemma TotalLenAdd<K>(m: map<K, Bytes>, k: K, data: Bytes)
    requires k !in m
    ensures |m[k := data]| == |m| + 1
    ensures TotalLen(m[k := data]) == TotalLen(m) + |data|
  {
    TotalLenRemove(m[k := data], k);
    assert m[k := data] - {k} == m;
  }

  /** The counters describe the chunk map. */
  ghost predicate Consistent(x: Inbox) {
    x.received == |x.chunks| && x.bytes == TotalLen(x.chunks)
  }

  lemma StoredConsistent(x: Inbox, index: Index, data: Bytes)
    requires Consistent(x)
    ensures Consistent(Stored(x, index, data))
  {
    if index !in x.chunks {
      TotalLenAdd(x.chunks, index, data);
    }
  }

  // ---------------------------------------------------------------------------
  // Checkpoint and restore.
  // ---------------------------------------------------------------------------

  /** How chunk indexes are written as object keys. */
  datatype IndexText = IndexText(print_: Index -> string, parse: string -> Option<Index>) {
    ghost predicate Exact() {
      forall i: Index :: parse(print_(i)) == Some(i)
    }
  }

  function ParseIndex(s: string): Option<Index> {
    match Atoi(s) case None => None case Some(n) => Some(n)
  }

  /** strconv.Itoa and strconv.Atoi. */
  function Decimal(): IndexText { IndexText((i: Index) => Itoa(i), ParseIndex) }

  lemma DecimalIsExact()
    ensures Decimal().Exact()
  {
    forall i: Index ensures Decimal().parse(Decimal().print_(i)) == Some(i) {
      AtoiItoa(i);
    }
  }

  /** The checkpoint on disk: chunk data under the text of its index. */
  datatype Snapshot = Snapshot(total: Index, entries: map<string, Bytes>)

  /** `entries` holds the chunks and nothing else. */
  ghost predicate Encodes(c: IndexText, entries: map<string, Bytes>, chunks: map<Index, Bytes>) {
    && (forall i :: i in chunks ==> c.print_(i) in entries && entries[c.print_(i)] == chunks[i])
    && (forall s :: s in entries ==> c.parse(s).Some? && s == c.print_(c.parse(s).value) && c.parse(s).value in chunks)
  }

  /** Every key that parses is the text that printing its index yields. */
  ghost predicate Canonical(c: IndexText, entries: map<string, Bytes>) {
    forall s :: s in entries && c.parse(s).Some? ==> s == c.print_(c.parse(s).value)
  }

  ghost function Decoded(c: IndexText, entries: map<string, Bytes>): map<Index, Bytes>
    requires Canonical(c, entries)
  {
    var indexes := set s | s in entries && c.parse(s).Some? :: c.parse(s).value;
    map i | i in indexes :: entries[c.print_(i)]
  }

  ghost function RestoredFrom(c: IndexText, disk: Snapshot): Inbox
    requires Canonical(c, disk.entries)
  {
    var chunks := Decoded(c, disk.entries);
    Inbox(disk.total, chunks, |chunks|, TotalLen(chunks))
  }

  lemma EncodesStep(c: IndexText, entries: map<string, Bytes>, chunks: map<Index, Bytes>, i: Index, data: Bytes)
    requires c.Exact()
    requires Encodes(c, entries, chunks) && i !in chunks
    ensures Encodes(c, entries[c.print_(i) := data], chunks[i := data])
  {
  }

  lemma DecodedEncodes(c: IndexText, entries: map<string, Bytes>, chunks: map<Index, Bytes>)
    requires c.Exact()
    requires Encodes(c, entries, chunks)
    ensures Canonical(c, entries) && Decoded(c, entries) == chunks
  {
    forall i | i in chunks ensures i in Decoded(c, entries) && Decoded(c, entries)[i] == chunks[i] {
      assert c.print_(i) in entries && c.parse(c.print_(i)) == Some(i);
    }
  }

  /** Restoring a checkpoint gives back the chunk map and both counters. */
  lemma RestoreInvertsCheckpoint(c: IndexText, x: Inbox, disk: Snapshot)
    requires c.Exact()
    requires Consistent(x) && disk.total == x.total && Encodes(c, disk.entries, x.chunks)
    ensures Canonical(c, disk.entries) && RestoredFrom(c, disk) == x
  {
    DecodedEncodes(c, disk.entries, x.chunks);
  }

  lemma DecodedStep(c: IndexText, entries: map<string, Bytes>, s: string, data: Bytes)
    requires s !in entries && Canonical(c, entries[s := data])
    ensures Canonical(c, entries)
    ensures c.parse(s).None? ==> Decoded(c, entries[s := data]) == Decoded(c, entries)
    ensures c.parse(s).Some? ==>
              && c.parse(s).value !in Decoded(c, entries)
              && Decoded(c, entries[s := data]) == Decoded(c, entries)[c.parse(s).value := data]
  {
    var more := entries[s := data];
    assert forall t :: t in entries ==> t in more && more[t] == entries[t];
    if c.parse(s).Some? {
      var i := c.parse(s).value;
      assert s in more && s == c.print_(i);
      assert i in Decoded(c, more);
    }
  }

  // ---------------------------------------------------------------------------
  // The transfer object.
  // ---------------------------------------------------------------------------

  datatype Direction = Send | Receive

  class Transfer {
    const direction: Direction
    const chunkTotal: Index
    /** The file behind a send transfer. */
    const source: Bytes
    var status: string
    var bytesSent: int
    var chunks: map<Index, Bytes>
    var chunksRecv: int
    var chunksSent: int
    /** Position of the sequential file handle. */
    var cursor: nat

    ghost predicate Sender()
      reads this
    {
      && direction == Send && chunkTotal == ChunkCount(|source|)
      && 0 <= chunksSent <= chunkTotal
      && cursor == bytesSent == Offset(source, chunksSent)
    }

    function View(): Inbox
      reads this
    {
      Inbox(chunkTotal, chunks, chunksRecv, bytesSent)
    }

    constructor ForSend(source: Bytes)
      requires ChunkCount(|source|) <= INT64_MAX
      ensures Sender() && chunksSent == 0 && this.source == source && chunks == map[]
    {
      direction, this.source, chunkTotal := Send, source, ChunkCount(|source|);
      status, bytesSent, chunks, chunksRecv, chunksSent, cursor := "pending", 0, map[], 0, 0, 0;
    }

    constructor ForReceive(chunkTotal: Index)
      ensures direction == Receive && View() == NewInbox(chunkTotal)
    {
      direction, source, this.chunkTotal := Receive, [], chunkTotal;
      status, bytesSent, chunks, chunksRecv, chunksSent, cursor := "active", 0, map[], 0, 0, 0;
    }

    /** The sequential reader: the next chunk with its index, or an error at the end. */
    method ReadChunk() returns (r: Result<Piece>)
      requires direction == Send ==> Sender()
      modifies this`chunksSent, this`bytesSent, this`status, this`cursor
      ensures direction == Send ==> Sender()
      ensures r.Ok? <==> direction == Send && old(chunksSent) < chunkTotal
      ensures r.Ok? ==>
                && r.value == Piece(old(chunksSent), ChunkAt(source, old(chunksSent)))
                && chunksSent == old(chunksSent) + 1
                && (status == "completed" <==> chunksSent == chunkTotal)
      ensures r.Err? ==>
                && chunksSent == old(chunksSent) && bytesSent == old(bytesSent)
                && status == old(status) && cursor == old(cursor)
    {
      if direction != Send {
        return Err("not a send transfer");
      }
      if chunksSent >= chunkTotal {
        return Err("EOF");
      }
      var n := Min(CHUNK_SIZE, |source| - cursor);
      var chunk := source[cursor..cursor + n];
      var index := chunksSent;
      cursor := cursor + n;
      chunksSent := chunksSent + 1;
      bytesSent := bytesSent + n;
      status := if chunksSent >= chunkTotal then "completed" else "active";
      r := Ok(Piece(index, chunk));
    }

    /** startFileSend on a fresh transfer: every chunk of the file, in order. */
    method SendAll() returns (pieces: seq<Piece>)
      requires Sender() && chunksSent == 0
      modifies this
      ensures Sender() && chunksSent == chunkTotal && bytesSent == |source|
      ensures pieces == Pieces(source, chunkTotal)
    {
      pieces := [];
      var more := true;
      while more
        invariant Sender() && pieces == Pieces(source, chunksSent)
        invariant !more ==> chunksSent == chunkTotal
        decreases more, chunkTotal - chunksSent
      {
        var r := ReadChunk();
        if r.Ok? {
          pieces := pieces + [r.value];
        } else {
          more := false;
        }
      }
    }

    /** The random-access reader. */
    method ReadChunkAt(index: Index) returns (r: Result<Bytes>)
      requires direction == Send ==> Sender()
      ensures r.Ok? <==> direction == Send && 0 <= index < chunkTotal
      ensures r.Ok? ==> r.value == ChunkAt(source, index)
    {
      if direction != Send {
        return Err("not a send transfer");
      }
      if index < 0 || index >= chunkTotal {
        return Err("chunk index out of range");
      }
      var offset := index * CHUNK_SIZE;
      var n := Min(CHUNK_SIZE, |source| - offset);
      r := Ok(source[offset..offset + n]);
    }

    /** resendChunks. */
    method ResendChunks(wanted: seq<Index>) returns (pieces: seq<Piece>)
      requires Sender()
      ensures pieces == Replies(source, wanted, {})
    {
      pieces := [];
      var seen: set<Index> := {};
      for i := 0 to |wanted|
        invariant pieces + Replies(source, wanted[i..], seen) == Replies(source, wanted, {})
      {
        var index := wanted[i];
        assert wanted[i..][1..] == wanted[i + 1..];
        if index !in seen {
          seen := seen + {index};
          var r := ReadChunkAt(index);
          if r.Ok? {
            pieces := pieces + [Piece(index, r.value)];
          }
        }
      }
    }

    /** The receiver accepts any index and ignores one it already has. */
    method WriteChunk(index: Index, data: Bytes) returns (ok: bool)
      modifies this`chunks, this`chunksRecv, this`bytesSent
      ensures ok <==> direction == Receive
      ensures View() == if ok then Stored(old(View()), index, data) else old(View())
    {
      if direction != Receive {
        return false;
      }
      if index in chunks {
        return true;
      }
      chunks := chunks[index := data];
      chunksRecv := chunksRecv + 1;
      bytesSent := bytesSent + |data|;
      return true;
    }

    method MissingChunks() returns (missing: seq<Index>)
      ensures missing == if direction == Receive then Missing(View()) else []
    {
      missing := [];
      if direction != Receive {
        return;
      }
      var i := 0;
      while i < chunkTotal
        invariant 0 <= i && (i <= chunkTotal || i == 0)
        invariant missing == MissingBelow(View(), i)
      {
        if i !in chunks {
          missing := missing + [i];
        }
        i := i + 1;
      }
    }

    /** The write loop of SaveFile; `written` is the content of the new file. */
    method SaveFile() returns (r: Result<Bytes>)
      modifies this`status
      ensures direction == Receive ==> (r.Ok? <==> Saved(View()).Some?)
      ensures direction != Receive ==> r.Err?
      ensures r.Ok? ==> Saved(View()) == Some(r.value) && status == "completed"
      ensures r.Err? ==> status == old(status)
    {
      if direction != Receive {
        return Err("not a receive transfer");
      }
      if chunksRecv < chunkTotal {
        return Err("transfer not complete");
      }
      var written := [];
      var i := 0;
      while i < chunkTotal
        invariant 0 <= i && (i <= chunkTotal || i == 0) && status == old(status)
        invariant Assembled(View(), i) == Some(written)
      {
        if i !in chunks {
          MissingPieceFailsSave(View(), i, chunkTotal);
          return Err("missing chunk");
        }
        written := written + chunks[i];
        i := i + 1;
      }
      status := "completed";
      r := Ok(written);
    }

    /** What a receive transfer does with a chunk: store, checkpoint, and save once complete. */
    method Accept(index: Index, data: Bytes) returns (disk: Option<Snapshot>, saved: Option<Bytes>)
      requires direction == Receive
      modifies this
      ensures View() == Stored(old(View()), index, data) && saved == Saved(View())
      ensures if saved.Some? then disk.None? else Describes(disk, View())
    {
      var _ := WriteChunk(index, data);
      saved := None;
      disk := Checkpoint();
      if chunksRecv >= chunkTotal {
        var r := SaveFile();
        if r.Ok? {
          saved, disk := Some(r.value), None;
        }
      }
    }

    method Checkpoint() returns (disk: Option<Snapshot>)
      ensures disk.Some? <==> direction == Receive
      ensures disk.Some? ==> disk.value.total == chunkTotal && Encodes(Decimal(), disk.value.entries, chunks)
    {
      if direction != Receive {
        return None;
      }
      var entries := EncodeChunks(Decimal(), chunks) by { DecimalIsExact(); }
      disk := Some(Snapshot(chunkTotal, entries));
    }
  }

  lemma {:induction false} MissingPieceFailsSave(x: Inbox, i: Index, n: Index)
    requires 0 <= i < n && i !in x.chunks
    ensures Assembled(x, n) == None
    decreases n
  {
    if i < n - 1 {
      MissingPieceFailsSave(x, i, n - 1);
    }
  }

  method EncodeChunks(c: IndexText, chunks: map<Index, Bytes>) returns (entries: map<string, Bytes>)
    requires c.Exact()
    ensures Encodes(c, entries, chunks)
  {
    entries := map[];
    var todo := chunks.Keys;
    while todo != {}
      invariant todo <= chunks.Keys
      invariant Encodes(c, entries, chunks - todo)
      decreases |todo|
    {
      var i :| i in todo;
      EncodesStep(c, entries, chunks - todo, i, chunks[i]);
      assert chunks - (todo - {i}) == (chunks - todo)[i := chunks[i]];
      entries := entries[c.print_(i) := chunks[i]];
      todo := todo - {i};
    }
    assert chunks - todo == chunks;
  }

  /** The entries whose key is the text of a number. */
  ghost function Readable(c: IndexText, entries: map<string, Bytes>): map<string, Bytes> {
    map s | s in entries && c.parse(s).Some? :: entries[s]
  }

  /** Each index that is named has the data of one of the entries that name it, and no other has any. */
  ghost predicate Names(c: IndexText, entries: map<string, Bytes>, chunks: map<Index, Bytes>) {
    && (forall i :: i in chunks ==> exists s :: s in entries && c.parse(s) == Some(i) && chunks[i] == entries[s])
    && (forall s :: s in entries && c.parse(s).Some? ==> c.parse(s).value in chunks)
  }

  /** Every readable entry is counted. */
  ghost predicate Counts(c: IndexText, entries: map<string, Bytes>, received: int, bytes: int) {
    received == |Readable(c, entries)| && bytes == TotalLen(Readable(c, entries))
  }

  /** What replaying entries yields, in whatever order. */
  ghost predicate Replays(c: IndexText, entries: map<string, Bytes>, chunks: map<Index, Bytes>, received: int, bytes: int) {
    Names(c, entries, chunks) && Counts(c, entries, received, bytes)
  }

  lemma CountsStep(c: IndexText, entries: map<string, Bytes>, s: string, data: Bytes, received: int, bytes: int)
    requires s !in entries && Counts(c, entries, received, bytes)
    ensures c.parse(s).None? ==> Counts(c, entries[s := data], received, bytes)
    ensures c.parse(s).Some? ==> Counts(c, entries[s := data], received + 1, bytes + |data|)
  {
    if c.parse(s).Some? {
      assert Readable(c, entries[s := data]) == Readable(c, entries)[s := data];
      TotalLenAdd(Readable(c, entries), s, data);
    } else {
      assert Readable(c, entries[s := data]) == Readable(c, entries);
    }
  }

  lemma NamedBy(c: IndexText, entries: map<string, Bytes>, chunks: map<Index, Bytes>, s: string, data: Bytes, i: Index)
    requires s !in entries && Names(c, entries, chunks) && i in chunks
    ensures exists k :: k in entries[s := data] && c.parse(k) == Some(i) && chunks[i] == entries[s := data][k]
  {
    var k :| k in entries && c.parse(k) == Some(i) && chunks[i] == entries[k];
    assert k in entries[s := data] && entries[s := data][k] == entries[k];
  }

  lemma NamesSkip(c: IndexText, entries: map<string, Bytes>, s: string, data: Bytes, chunks: map<Index, Bytes>)
    requires s !in entries && Names(c, entries, chunks) && c.parse(s).None?
    ensures Names(c, entries[s := data], chunks)
  {
    forall i | i in chunks
      ensures exists k :: k in entries[s := data] && c.parse(k) == Some(i) && chunks[i] == entries[s := data][k]
    {
      NamedBy(c, entries, chunks, s, data, i);
    }
  }

  lemma NamesPut(c: IndexText, entries: map<string, Bytes>, s: string, data: Bytes, chunks: map<Index, Bytes>, index: Index)
    requires s !in entries && Names(c, entries, chunks) && c.parse(s) == Some(index)
    ensures Names(c, entries[s := data], chunks[index := data])
  {
    var more, chunks' := entries[s := data], chunks[index := data];
    forall i | i in chunks' ensures exists k :: k in more && c.parse(k) == Some(i) && chunks'[i] == more[k] {
      if i == index {
        assert s in more && chunks'[i] == more[s];
      } else {
        NamedBy(c, entries, chunks, s, data, i);
      }
    }
  }

  /** RestorePartial: replays the entries of a checkpoint in no particular order. */
  method RestorePartial(c: IndexText, disk: Snapshot) returns (t: Transfer)
    ensures fresh(t) && t.direction == Receive && t.chunkTotal == disk.total
    ensures Replays(c, disk.entries, t.chunks, t.chunksRecv, t.bytesSent)
    ensures Canonical(c, disk.entries) ==> t.View() == RestoredFrom(c, disk)
  {
    t := new Transfer.ForReceive(disk.total);
    var chunks, received, bytes := ReplayEntries(c, disk.entries);
    t.chunks, t.chunksRecv, t.bytesSent := chunks, received, bytes;
  }

  /** The entries outside `todo` have been replayed. */
  ghost predicate Replayed(
    c: IndexText, entries: map<string, Bytes>, todo: set<string>, chunks: map<Index, Bytes>, received: int, bytes: int)
    requires Canonical(c, entries)
  {
    chunks == Decoded(c, entries - todo) && received == |chunks| && bytes == TotalLen(chunks)
  }

  lemma ReplayStep(
    c: IndexText, entries: map<string, Bytes>, todo: set<string>, s: string,
    chunks: map<Index, Bytes>, received: int, bytes: int)
    requires Canonical(c, entries) && s in todo && todo <= entries.Keys
    requires Replayed(c, entries, todo, chunks, received, bytes)
    ensures c.parse(s).None? ==> Replayed(c, entries, todo - {s}, chunks, received, bytes)
    ensures c.parse(s).Some? ==>
              Replayed(c, entries, todo - {s}, chunks[c.parse(s).value := entries[s]], received + 1, bytes + |entries[s]|)
  {
    assert entries - (todo - {s}) == (entries - todo)[s := entries[s]];
    DecodedStep(c, entries - todo, s, entries[s]);
    if c.parse(s).Some? {
      TotalLenAdd(chunks, c.parse(s).value, entries[s]);
    }
  }

  /** The invariant of the replay loop. */
  ghost predicate Underway(
    c: IndexText, entries: map<string, Bytes>, todo: set<string>, chunks: map<Index, Bytes>, received: int, bytes: int)
  {
    && Replays(c, entries - todo, chunks, received, bytes)
    && (Canonical(c, entries) ==> Replayed(c, entries, todo, chunks, received, bytes))
  }

  lemma UnderwayStep(
    c: IndexText, entries: map<string, Bytes>, todo: set<string>, s: string,
    chunks: map<Index, Bytes>, received: int, bytes: int)
    requires s in todo && todo <= entries.Keys && Underway(c, entries, todo, chunks, received, bytes)
    ensures c.parse(s).None? ==> Underway(c, entries, todo - {s}, chunks, received, bytes)
    ensures c.parse(s).Some? ==>
              Underway(c, entries, todo - {s}, chunks[c.parse(s).value := entries[s]], received + 1, bytes + |entries[s]|)
  {
    assert entries - (todo - {s}) == (entries - todo)[s := entries[s]];
    CountsStep(c, entries - todo, s, entries[s], received, bytes);
    if c.parse(s).Some? {
      NamesPut(c, entries - todo, s, entries[s], chunks, c.parse(s).value);
    } else {
      NamesSkip(c, entries - todo, s, entries[s], chunks);
    }
    if Canonical(c, entries) {
      ReplayStep(c, entries, todo, s, chunks, received, bytes);
    }
  }

  lemma UnderwayStarts(c: IndexText, entries: map<string, Bytes>)
    ensures Underway(c, entries, entries.Keys, map[], 0, 0)
  {
    assert entries - entries.Keys == map[];
    assert Readable(c, map[]) == map[];
  }

  lemma UnderwayEnds(c: IndexText, entries: map<string, Bytes>, chunks: map<Index, Bytes>, received: int, bytes: int)
    requires Underway(c, entries, {}, chunks, received, bytes)
    ensures Replays(c, entries, chunks, received, bytes)
    ensures Canonical(c, entries) ==>
              chunks == Decoded(c, entries) && received == |chunks| && bytes == TotalLen(chunks)
  {
    assert entries - {} == entries;
  }

  method ReplayEntries(c: IndexText, entries: map<string, Bytes>)
    returns (chunks: map<Index, Bytes>, received: int, bytes: int)
    ensures Replays(c, entries, chunks, received, bytes)
    ensures Canonical(c, entries) ==>
              chunks == Decoded(c, entries) && received == |chunks| && bytes == TotalLen(chunks)
  {
    chunks, received, bytes := map[], 0, 0;
    var todo := entries.Keys;
    UnderwayStarts(c, entries);
    while todo != {}
      invariant todo <= entries.Keys
      invariant Underway(c, entries, todo, chunks, received, bytes)
      decreases |todo|
    {
      var s :| s in todo;
      UnderwayStep(c, entries, todo, s, chunks, received, bytes);
      todo := todo - {s};
      var index := c.parse(s);
      if index.Some? {
        chunks := chunks[index.value := entries[s]];
        received := received + 1;
        bytes := bytes + |entries[s]|;
      }
    }
    UnderwayEnds(c, entries, chunks, received, bytes);
  }

  // ---------------------------------------------------------------------------
  // A chunk message.
  // ---------------------------------------------------------------------------

  /** x is a transfer that restoring the checkpoint may yield. */
  ghost predicate Restores(disk: Snapshot, x: Inbox) {
    && x.total == disk.total && Replays(Decimal(), disk.entries, x.chunks, x.received, x.bytes)
    && (Canonical(Decimal(), disk.entries) ==> x == RestoredFrom(Decimal(), disk))
  }

  /** The checkpoint on disk describes the transfer. */
  ghost predicate Describes(disk: Option<Snapshot>, x: Inbox) {
    disk.Some? && disk.value.total == x.total && Encodes(Decimal(), disk.value.entries, x.chunks)
  }

  /**
    The file_chunk case of handleMessage.  An unknown transfer is restored from its
    checkpoint; the chunk is stored and checkpointed; a complete file is saved, its
    checkpoint cleared and the sender told so (`saved` is present).  `data` is missing when
    it could not be decoded; `before` is the transfer that the chunk met.
   */
  method HandleChunk(known: Option<Transfer>, partial: Option<Snapshot>, index: Index, data: Option<Bytes>)
    returns (t: Option<Transfer>, disk: Option<Snapshot>, saved: Option<Bytes>, ghost before: Inbox)
    modifies if known.Some? then {known.value} else {}
    ensures t.Some? <==> known.Some? || partial.Some?
    ensures known.Some? ==> t == known && before == old(known.value.View())
    ensures known.None? && partial.Some? ==> Restores(partial.value, before)
    ensures t.None? || data.None? || t.value.direction != Receive ==> disk == partial && saved == None
    ensures t.Some? && (data.None? || t.value.direction != Receive) ==> t.value.View() == before
    ensures t.Some? && data.Some? && t.value.direction == Receive ==>
              && t.value.View() == Stored(before, index, data.value)
              && saved == Saved(t.value.View())
              && (if saved.Some? then disk.None? else Describes(disk, t.value.View()))
  {
    t, disk, saved, before := known, partial, None, NewInbox(0);
    if t.None? {
      if partial.None? {
        return;
      }
      var restored := RestorePartial(Decimal(), partial.value);
      t := Some(restored);
    }
    before := t.value.View();
    if data.None? {
      return;
    }
    if t.value.direction == Receive {
      disk, saved := t.value.Accept(index, data.value);
    }
  }
}
