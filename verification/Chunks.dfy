/** Cutting a file into chunks, merging chunks into a buffer, and collecting a download. */
module Chunks {
  import opened Base

  const CHUNK: nat := 256 * 1024

  datatype Chunk = Chunk(offset: nat, data: Bytes, eof: bool)

  // ---- Merging ----

  // `buf` with `data` written at `offset`: zeros fill a gap, bytes behind the data stay.
  function Written(buf: Bytes, offset: nat, data: Bytes): (r: Bytes)
    ensures |r| == Max(|buf|, offset + |data|)
  {
    seq(Max(|buf|, offset + |data|), i requires 0 <= i =>
      if offset <= i < offset + |data| then data[i - offset] else if i < |buf| then buf[i] else 0 as byte)
  }

  // The provider's merge: pad, then append, overwrite inside, or cut off and append.
  method MergeChunk(stored: Bytes, chunk: Chunk) returns (buf: Bytes)
    ensures buf == Written(stored, chunk.offset, chunk.data)
    ensures |buf| == Max(|stored|, chunk.offset + |chunk.data|)
    ensures buf[chunk.offset..chunk.offset + |chunk.data|] == chunk.data
    ensures forall i :: 0 <= i < |buf| && !(chunk.offset <= i < chunk.offset + |chunk.data|) ==>
              buf[i] == if i < |stored| then stored[i] else 0
  {
    buf := stored;
    if chunk.offset > |buf| {
      buf := buf + Zeros(chunk.offset - |buf|);
    }
    if chunk.offset == |buf| {
      buf := buf + chunk.data;
    } else if chunk.offset + |chunk.data| <= |buf| {
      buf := buf[..chunk.offset] + chunk.data + buf[chunk.offset + |chunk.data|..];
    } else {
      buf := buf[..chunk.offset];
      buf := buf + chunk.data;
    }
    assert |buf| == |Written(stored, chunk.offset, chunk.data)|;
    assert forall i :: 0 <= i < |buf| ==> buf[i] == Written(stored, chunk.offset, chunk.data)[i];
  }

  function Delivered(buf: Bytes, chunks: seq<Chunk>): Bytes {
    if chunks == [] then buf
    else Written(Delivered(buf, chunks[..|chunks| - 1]), chunks[|chunks| - 1].offset, chunks[|chunks| - 1].data)
  }

  predicate IsSliceOf(c: Chunk, d: Bytes) {
    c.offset + |c.data| <= |d| && c.data == d[c.offset..c.offset + |c.data|]
  }

  predicate Covers(c: Chunk, i: nat) {
    c.offset <= i < c.offset + |c.data|
  }

  ghost predicate Covered(chunks: seq<Chunk>, i: nat) {
    exists k :: 0 <= k < |chunks| && Covers(chunks[k], i)
  }

  lemma {:induction false} DeliveredBytes(d: Bytes, buf: Bytes, chunks: seq<Chunk>)
    requires buf <= d && forall k :: 0 <= k < |chunks| ==> IsSliceOf(chunks[k], d)
    ensures var r := Delivered(buf, chunks);
            |buf| <= |r| <= |d| && (forall i :: 0 <= i < |r| && (i < |buf| || Covered(chunks, i)) ==> r[i] == d[i])
            && forall i :: 0 <= i && Covered(chunks, i) ==> i < |r|
  {
    if chunks != [] {
      var before, c := chunks[..|chunks| - 1], chunks[|chunks| - 1];
      DeliveredBytes(d, buf, before);
      var r0, r := Delivered(buf, before), Delivered(buf, chunks);
      forall i | 0 <= i && Covered(chunks, i)
        ensures Covers(c, i) || Covered(before, i)
      {
        var k :| 0 <= k < |chunks| && Covers(chunks[k], i);
        assert k < |before| ==> before[k] == chunks[k];
      }
      assert forall i :: 0 <= i < |r| && Covers(c, i) ==> r[i] == d[i];
      assert forall i :: 0 <= i < |r0| && !Covers(c, i) ==> r[i] == r0[i];
    }
  }

  // Slices of d that together cover what a prefix of d leaves open rebuild d, in whatever order they
  // come and however they overlap or repeat.
  lemma {:induction false} AnyOrderRebuilds(d: Bytes, buf: Bytes, chunks: seq<Chunk>)
    requires buf <= d && forall k :: 0 <= k < |chunks| ==> IsSliceOf(chunks[k], d)
    requires forall i :: |buf| <= i < |d| ==> Covered(chunks, i)
    ensures Delivered(buf, chunks) == d
  {
    DeliveredBytes(d, buf, chunks);
    var r := Delivered(buf, chunks);
    if |buf| < |d| {
      assert Covered(chunks, |d| - 1);
    }
    assert |r| == |d|;
    assert forall i :: 0 <= i < |d| ==> r[i] == d[i];
  }

  // ---- Cutting ----

  // The non-empty pieces of d from `start` on.
  function Pieces(d: Bytes, start: nat): seq<Chunk>
    decreases |d| - start
  {
    if start >= |d| then []
    else
      var end := Min(start + CHUNK, |d|);
      [Chunk(start, d[start..end], end >= |d|)] + Pieces(d, end)
  }

  // What a sender puts on the wire; an empty rest is one empty final chunk.
  function ChunksOf(d: Bytes, start: nat): seq<Chunk> {
    if start >= |d| then [Chunk(start, [], true)] else Pieces(d, start)
  }

  // Where chunk k of the transmission begins.
  function Cut(d: Bytes, start: nat, k: nat): nat {
    Min(start + k * CHUNK, Max(start, |d|))
  }

  lemma {:induction false} CutShift(d: Bytes, start: nat, k: nat)
    requires start <= |d|
    ensures Cut(d, start, 0) == start && Cut(d, start, k) <= |d|
    ensures start < |d| ==> Cut(d, start, k + 1) == Cut(d, Min(start + CHUNK, |d|), k)
  {
    assert (k + 1) * CHUNK == k * CHUNK + CHUNK;
  }

  lemma {:induction false} PieceAt(d: Bytes, start: nat, k: nat)
    requires start < |d| && k < |Pieces(d, start)|
    ensures var n := |Pieces(d, start)|;
            Cut(d, start, k) < Cut(d, start, k + 1) <= |d| && (k + 1 == n <==> Cut(d, start, k + 1) == |d|) &&
            Pieces(d, start)[k] == Chunk(Cut(d, start, k), d[Cut(d, start, k)..Cut(d, start, k + 1)], k + 1 == n)
    decreases k
  {
    var end := Min(start + CHUNK, |d|);
    CutShift(d, start, k);
    CutShift(d, end, 0);
    hide Cut;
    if k > 0 {
      CutShift(d, start, k - 1);
      PieceAt(d, end, k - 1);
    } else if end < |d| {
      assert |Pieces(d, end)| > 0;
    }
  }

  // Chunk k starts at Cut(k) and ends at Cut(k + 1), the cuts run from `start` to the end, and exactly
  // the last chunk is marked.
  lemma {:induction false} ChunkAt(d: Bytes, start: nat, k: nat)
    requires start <= |d| && k < |ChunksOf(d, start)|
    ensures var n := |ChunksOf(d, start)|;
            Cut(d, start, 0) == start && Cut(d, start, k) <= Cut(d, start, k + 1) <= |d| &&
            (k + 1 == n ==> Cut(d, start, k + 1) == |d|) &&
            ChunksOf(d, start)[k] == Chunk(Cut(d, start, k), d[Cut(d, start, k)..Cut(d, start, k + 1)], k + 1 == n)
  {
    if start < |d| {
      PieceAt(d, start, k);
    }
  }

  // Every chunk but the last has 256 KiB, and the last no more; only an empty rest makes an empty chunk.
  lemma {:induction false} ChunkSize(d: Bytes, start: nat, k: nat)
    requires start <= |d| && k < |ChunksOf(d, start)|
    ensures var size := |ChunksOf(d, start)[k].data|;
            size <= 0x4_0000 && (k + 1 < |ChunksOf(d, start)| ==> size == 0x4_0000) && (start < |d| ==> 0 < size)
  {
    ChunkAt(d, start, k);
    if start < |d| {
      PieceAt(d, start, k);
    }
    CutStep(d, start, k);
    hide Pieces, ChunksOf, Cut;
  }

  lemma {:induction false} CutStep(d: Bytes, start: nat, k: nat)
    requires start <= |d|
    ensures Cut(d, start, k + 1) == Min(Cut(d, start, k) + 0x4_0000, |d|)
  {
    assert (k + 1) * CHUNK == k * CHUNK + CHUNK;
  }

  lemma {:induction false} PiecesConcat(d: Bytes, start: nat)
    requires start <= |d|
    ensures Datas(Pieces(d, start)) == d[start..]
    decreases |d| - start
  {
    if start < |d| {
      var end := Min(start + CHUNK, |d|);
      PiecesConcat(d, end);
      assert Pieces(d, start)[1..] == Pieces(d, end);
      assert d[start..] == d[start..end] + d[end..];
    }
  }

  function Datas(chunks: seq<Chunk>): Bytes {
    if chunks == [] then [] else chunks[0].data + Datas(chunks[1..])
  }

  // A transmission carries exactly the rest of the file.
  lemma {:induction false} ChunksCarryRest(d: Bytes, start: nat)
    requires start <= |d|
    ensures Datas(ChunksOf(d, start)) == d[start..]
    ensures 0 < |ChunksOf(d, start)|
  {
    if start < |d| {
      PiecesConcat(d, start);
    } else {
      assert ChunksOf(d, start)[1..] == [];
    }
  }

  // The uploader's sending loop.
  method SendUpload(d: Bytes, start: nat) returns (sent: seq<Chunk>)
    requires start <= |d|
    ensures sent == ChunksOf(d, start)
  {
    sent := [];
    var offset := start;
    if start == |d| {
      sent := [Chunk(offset, [], true)];
    } else {
      while offset < |d|
        invariant start <= offset <= |d|
        invariant sent + Pieces(d, offset) == Pieces(d, start)
      {
        var data := d[offset..Min(offset + CHUNK, |d|)];
        var eof := offset + |data| >= |d|;
        sent := sent + [Chunk(offset, data, eof)];
        offset := offset + |data|;
      }
    }
  }

  // The provider's sending loop: the empty file is handled after the loop.
  method SendDownload(d: Bytes) returns (sent: seq<Chunk>)
    ensures sent == ChunksOf(d, 0)
  {
    sent := [];
    var offset := 0;
    while offset < |d|
      invariant offset <= |d|
      invariant sent + Pieces(d, offset) == Pieces(d, 0)
    {
      var data := d[offset..Min(offset + CHUNK, |d|)];
      var eof := offset + |data| >= |d|;
      sent := sent + [Chunk(offset, data, eof)];
      offset := offset + |data|;
    }
    if |d| == 0 {
      sent := sent + [Chunk(0, [], true)];
    }
  }

  // ---- Collecting a download ----

  datatype Message = Announce(size: nat) | Data(chunk: Chunk) | Ack(ok: bool) | Failure | Unrelated

  datatype Fault = Refused | RemoteError

  // What a downloader makes of the messages a connection delivers before it closes.
  function Collected(msgs: seq<Message>): Result<Bytes, Fault> {
    if msgs == [] then Ok([])
    else
      match msgs[0]
      case Data(c) =>
        if c.eof then Ok(c.data)
        else
          (match Collected(msgs[1..])
           case Ok(rest) => Ok(c.data + rest)
           case Err(f) => Err(f))
      case Ack(ok) => if ok then Collected(msgs[1..]) else Err(Refused)
      case Failure => Err(RemoteError)
      case _ => Collected(msgs[1..])
  }

  // What the loop of Collect has still to yield after it has gathered `data`.
  function Prepend(data: Bytes, r: Result<Bytes, Fault>): Result<Bytes, Fault> {
    match r
    case Ok(rest) => Ok(data + rest)
    case Err(f) => Err(f)
  }

  method Collect(msgs: seq<Message>) returns (r: Result<Bytes, Fault>)
    ensures r == Collected(msgs)
  {
    var data: Bytes := [];
    var k := 0;
    assert msgs[0..] == msgs;
    assert forall rest: Bytes :: data + rest == rest;
    while k < |msgs|
      invariant k <= |msgs|
      invariant Collected(msgs) == Prepend(data, Collected(msgs[k..]))
    {
      var m := msgs[k];
      k := k + 1;
      assert msgs[k - 1..][1..] == msgs[k..];
      match m {
        case Data(c) =>
          ghost var before := data;
          data := data + c.data;
          if c.eof {
            return Ok(data);
          }
          assert forall rest: Bytes :: before + (c.data + rest) == data + rest;
        case Ack(ok) =>
          if !ok {
            return Err(Refused);
          }
        case Failure =>
          return Err(RemoteError);
        case _ =>
      }
    }
    assert data + [] == data;
    return Ok(data);
  }

  // The messages that end a download.
  predicate Stops(m: Message) {
    (m.Data? && m.chunk.eof) || m == Ack(false) || m.Failure?
  }

  // The first message that ends a download decides it: the last chunk completes the data so far, a negative
  // answer refuses it and an Error message fails it. Without any, the data so far is the result.
  lemma {:induction false} FirstStopDecides(msgs: seq<Message>, k: nat)
    requires k <= |msgs| && forall i :: 0 <= i < k ==> !Stops(msgs[i])
    ensures k < |msgs| && msgs[k].Data? && msgs[k].chunk.eof ==> Collected(msgs) == Ok(Datas(ChunksIn(msgs[..k + 1])))
    ensures k < |msgs| && msgs[k] == Ack(false) ==> Collected(msgs) == Err(Refused)
    ensures k < |msgs| && msgs[k].Failure? ==> Collected(msgs) == Err(RemoteError)
    ensures k == |msgs| ==> Collected(msgs) == Ok(Datas(ChunksIn(msgs)))
  {
    if k > 0 {
      var rest := msgs[1..];
      assert forall i :: 0 <= i < k - 1 ==> rest[i] == msgs[i + 1];
      FirstStopDecides(rest, k - 1);
      if k < |msgs| {
        assert rest[k - 1] == msgs[k] && msgs[..k + 1][1..] == rest[..k];
        ConsChunks(msgs[0], rest[..k]);
        assert msgs[..k + 1] == [msgs[0]] + rest[..k];
      }
      ConsChunks(msgs[0], rest);
      assert msgs == [msgs[0]] + rest;
    } else if msgs != [] && msgs[0].Data? && msgs[0].chunk.eof {
      ConsChunks(msgs[0], []);
      assert msgs[..1] == [msgs[0]] + [];
      assert msgs[0].chunk.data + [] == msgs[0].chunk.data;
    }
  }

  lemma {:induction false} ConsChunks(m: Message, msgs: seq<Message>)
    ensures Datas(ChunksIn([m] + msgs)) == (if m.Data? then m.chunk.data else []) + Datas(ChunksIn(msgs))
  {
    assert ([m] + msgs)[1..] == msgs;
    if m.Data? {
      assert ([m.chunk] + ChunksIn(msgs))[1..] == ChunksIn(msgs);
    }
  }

  predicate Harmless(m: Message) {
    m.Announce? || m.Unrelated? || m == Ack(true)
  }

  // The chunks among the messages.
  function ChunksIn(msgs: seq<Message>): seq<Chunk> {
    if msgs == [] then []
    else if msgs[0].Data? then [msgs[0].chunk] + ChunksIn(msgs[1..])
    else ChunksIn(msgs[1..])
  }

  // If the first chunks of a transmission arrive, among harmless messages, and then the connection
  // closes, the downloader reports success with exactly the bytes of those chunks.
  lemma {:induction false} CollectsWhatArrives(msgs: seq<Message>)
    requires forall k :: 0 <= k < |msgs| ==> msgs[k].Data? || Harmless(msgs[k])
    requires forall k :: 0 <= k < |ChunksIn(msgs)| - 1 ==> !ChunksIn(msgs)[k].eof
    ensures Collected(msgs) == Ok(Datas(ChunksIn(msgs)))
  {
    if msgs != [] {
      var cs := ChunksIn(msgs[1..]);
      if msgs[0].Data? {
        assert forall k :: 0 <= k < |cs| ==> cs[k] == ChunksIn(msgs)[k + 1];
        if msgs[0].chunk.eof {
          assert ChunksIn(msgs)[0].eof && |ChunksIn(msgs)| == 1;
          assert ChunksIn(msgs)[1..] == [];
          assert msgs[0].chunk.data + [] == msgs[0].chunk.data;
        } else {
          CollectsWhatArrives(msgs[1..]);
          assert ChunksIn(msgs)[1..] == cs;
        }
      } else {
        assert ChunksIn(msgs) == cs;
        CollectsWhatArrives(msgs[1..]);
      }
    }
  }

  // A download is complete exactly when all its chunks arrived: with the first n of them the result is
  // the file up to cut n. An early close is not reported.
  lemma {:induction false} DownloadIsPrefix(d: Bytes, msgs: seq<Message>)
    requires forall k :: 0 <= k < |msgs| ==> msgs[k].Data? || Harmless(msgs[k])
    requires ChunksIn(msgs) <= ChunksOf(d, 0)
    ensures var n := |ChunksIn(msgs)|;
            Collected(msgs) == Ok(d[..Cut(d, 0, n)]) &&
            (Collected(msgs) == Ok(d) <==> n == |ChunksOf(d, 0)| || d == [])
  {
    var cs, n := ChunksIn(msgs), |ChunksIn(msgs)|;
    forall k | 0 <= k < n
      ensures !cs[k].eof || k + 1 == |ChunksOf(d, 0)|
    {
      ChunkAt(d, 0, k);
    }
    CollectsWhatArrives(msgs);
    assert cs == ChunksOf(d, 0)[..n];
    DatasOfPrefix(d, n);
    if d != [] && n == |ChunksOf(d, 0)| {
      ChunksCarryRest(d, 0);
      ChunkAt(d, 0, n - 1);
      assert d[..|d|] == d;
    } else if d != [] {
      PieceAt(d, 0, n);
      assert |d[..Cut(d, 0, n)]| < |d|;
    }
  }

  lemma {:induction false} DatasLast(cs: seq<Chunk>, c: Chunk)
    ensures Datas(cs + [c]) == Datas(cs) + c.data
  {
    if cs == [] {
      assert (cs + [c])[1..] == [];
    } else {
      assert (cs + [c])[1..] == cs[1..] + [c];
      DatasLast(cs[1..], c);
    }
  }

  lemma {:induction false} DatasOfPrefix(d: Bytes, n: nat)
    requires n <= |ChunksOf(d, 0)|
    ensures Cut(d, 0, n) <= |d| && Datas(ChunksOf(d, 0)[..n]) == d[..Cut(d, 0, n)]
  {
    if n > 0 {
      DatasOfPrefix(d, n - 1);
      ChunkAt(d, 0, n - 1);
      assert ChunksOf(d, 0)[..n] == ChunksOf(d, 0)[..n - 1] + [ChunksOf(d, 0)[n - 1]];
      DatasLast(ChunksOf(d, 0)[..n - 1], ChunksOf(d, 0)[n - 1]);
      assert d[..Cut(d, 0, n)] == d[..Cut(d, 0, n - 1)] + d[Cut(d, 0, n - 1)..Cut(d, 0, n)];
    }
  }
}
