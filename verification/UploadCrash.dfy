/** Uploads that are cut off anywhere: one destination that nothing on the disk clashes with, one file, any
    number of attempts, and every write to disk may be torn. */
module UploadCrash {
  import opened Base
  import opened Chunks
  import Upload
  import Paths

  datatype ToServer = OfferMsg | ChunkMsg(chunk: Chunk)

  datatype ToClient = Resume(from: nat) | Final(ok: bool)

  // Where the uploader is. `start` is the resume point, `sent` counts chunks sent.
  datatype Client = AwaitResume | Sending(start: nat, sent: nat) | AwaitFinal(start: nat) |
                    Finished(start: nat, ok: bool)

  // Where the provider is. After a merge it mirrors the buffer; after the last one it stores the
  // file, checks it, removes the partial file and replies.
  datatype Server =
    | Idle
    | Open(buf: Bytes)
    | Mirroring(buf: Bytes, eof: bool)
    | Storing(data: Bytes)
    | Checking(data: Bytes)
    | Cleaning(ok: bool)
    | Replying(ok: bool)

  /** `taken` counts the chunks the provider has merged. `held` and `wire` are history: what the provider
      held when it took the offer, and the chunks the uploader has sent. */
  datatype Connection = Connection(client: Client, toServer: seq<ToServer>, toClient: seq<ToClient>, server: Server,
                                   taken: nat, held: Option<Bytes>, wire: seq<Chunk>)

  datatype State = State(dest: Option<Bytes>, partial: Option<Bytes>, conn: Option<Connection>)

  datatype Event =
    | Connect
    | Disconnect                      // also a crash of either side
    | TakeOffer
    | TakeResume
    | SendChunk
    | AllSent
    | TakeChunk
    | Mirror(written: Option<Bytes>)  // what the partial file holds after the write; None if it never began
    | Store
    | TornStore(torn: Bytes)          // the write of the file fails half way and ends the session
    | CheckHash
    | RemovePartial(removed: bool)
    | SendFinal
    | TakeFinal

  predicate Enabled(d: Bytes, s: State, e: Event) {
    if e.Connect? || s.conn.None? then e.Connect? && s.conn.None?
    else CanHappen(d, s.conn.value, e)
  }

  predicate CanHappen(d: Bytes, c: Connection, e: Event) {
    match e
    case Disconnect => true
    case TakeOffer => c.server.Idle? && c.toServer != [] && c.toServer[0].OfferMsg?
    case TakeResume => c.client.AwaitResume? && c.toClient != [] && c.toClient[0].Resume?
    case SendChunk => c.client.Sending? && c.client.sent < |ChunksOf(d, c.client.start)|
    case AllSent => c.client.Sending? && c.client.sent == |ChunksOf(d, c.client.start)|
    case TakeChunk => c.server.Open? && c.toServer != [] && c.toServer[0].ChunkMsg?
    case Mirror(w) => c.server.Mirroring? && (w.None? || w.value <= c.server.buf)
    case Store => c.server.Storing?
    case TornStore(w) => c.server.Storing? && w <= c.server.data
    case CheckHash => c.server.Checking?
    case RemovePartial(_) => c.server.Cleaning?
    case SendFinal => c.server.Replying?
    case TakeFinal => c.client.AwaitFinal? && c.toClient != [] && c.toClient[0].Final?
    case _ => false
  }

  function After(sha: Upload.Hash, d: Bytes, s: State, e: Event): State
    requires Enabled(d, s, e)
  {
    if e.Connect? then s.(conn := Some(Connection(AwaitResume, [OfferMsg], [], Idle, 0, None, [])))
    else
      var c := s.conn.value;
      match e
      case Disconnect => s.(conn := None)
      case TakeOffer =>
        var buf := if s.partial.Some? && |s.partial.value| < |d| then s.partial.value else [];
        s.(conn := Some(c.(server := Open(buf), toServer := c.toServer[1..], toClient := c.toClient + [Resume(|buf|)],
                             held := Some(buf))))
      case TakeResume =>
        s.(conn := Some(c.(client := Sending(Min(c.toClient[0].from, |d|), 0), toClient := c.toClient[1..])))
      case SendChunk =>
        var k := c.client.sent;
        s.(conn := Some(c.(client := c.client.(sent := k + 1),
                           toServer := c.toServer + [ChunkMsg(ChunksOf(d, c.client.start)[k])],
                           wire := c.wire + [ChunksOf(d, c.client.start)[k]])))
      case AllSent => s.(conn := Some(c.(client := AwaitFinal(c.client.start))))
      case TakeChunk =>
        var chunk := c.toServer[0].chunk;
        s.(conn := Some(c.(server := Mirroring(Written(c.server.buf, chunk.offset, chunk.data), chunk.eof),
                           toServer := c.toServer[1..], taken := c.taken + 1)))
      case Mirror(w) =>
        s.(partial := if w.Some? then w else s.partial,
           conn := Some(c.(server := if c.server.eof then Storing(c.server.buf) else Open(c.server.buf))))
      case Store => s.(dest := Some(c.server.data), conn := Some(c.(server := Checking(c.server.data))))
      case TornStore(w) => s.(dest := Some(w), conn := None)
      case CheckHash =>
        var ok := Upload.HashMatches(sha, c.server.data, sha(d));
        s.(dest := if ok then s.dest else None, conn := Some(c.(server := Cleaning(ok))))
      case RemovePartial(removed) =>
        s.(partial := if removed then None else s.partial, conn := Some(c.(server := Replying(c.server.ok))))
      case SendFinal =>
        s.(conn := Some(c.(server := Idle, toClient := c.toClient + [Final(c.server.ok)])))
      case TakeFinal =>
        s.(conn := Some(c.(client := Finished(c.client.start, c.toClient[0].ok), toClient := c.toClient[1..])))
  }

  function Follow(sha: Upload.Hash, d: Bytes, start: State, es: seq<Event>): Option<State> {
    if es == [] then Some(start)
    else
      match Follow(sha, d, start, es[..|es| - 1])
      case None => None
      case Some(mid) => if Enabled(d, mid, es[|es| - 1]) then Some(After(sha, d, mid, es[|es| - 1])) else None
  }

  // ---- The invariant ----

  predicate PartialGood(d: Bytes, p: Option<Bytes>) {
    p.Some? ==> p.value <= d
  }

  // Chunks i to j of the transmission, as messages.
  function Transit(d: Bytes, start: nat, i: nat, j: nat): seq<ToServer>
    requires i <= j <= |ChunksOf(d, start)|
  {
    seq(j - i, k requires 0 <= k < j - i => ChunkMsg(ChunksOf(d, start)[i + k]))
  }

  // The provider has merged `taken` chunks of a transmission from `start`, of which it still
  // waits for the rest.
  predicate ServerGood(d: Bytes, s: State, start: nat, taken: nat, server: Server) {
    var n := |ChunksOf(d, start)|;
    match server
    case Open(buf) => taken < n && buf == d[..Min(Cut(d, start, taken), |d|)]
    case Mirroring(buf, eof) => 0 < taken <= n && (eof <==> taken == n) && buf == d[..Min(Cut(d, start, taken), |d|)]
    case Storing(data) => taken == n && data == d
    case Checking(data) => taken == n && data == d && s.dest == Some(d)
    case Cleaning(ok) => taken == n && ok && s.dest == Some(d)
    case Replying(ok) => taken == n && ok && s.dest == Some(d)
    case Idle => taken == n && s.dest == Some(d)
  }

  // A transmission from `start` with `sent` chunks sent. Only an idle provider has replied.
  predicate TransferGood(d: Bytes, s: State, c: Connection, start: nat, sent: nat) {
    && start <= |d| && c.taken <= sent <= |ChunksOf(d, start)|
    && c.held == Some(d[..start]) && c.wire == ChunksOf(d, start)[..sent]
    && c.toServer == Transit(d, start, c.taken, sent)
    && ServerGood(d, s, start, c.taken, c.server)
  }

  predicate ConnGood(d: Bytes, s: State, c: Connection) {
    match c.client
    case AwaitResume =>
      c.taken == 0 && c.wire == [] &&
      if c.toServer == [OfferMsg] then c.toClient == [] && c.server == Idle
      else c.server.Open? && c.held == Some(c.server.buf) && c.toServer == [] &&
           c.toClient == [Resume(|c.server.buf|)] && c.server.buf <= d
           && (|c.server.buf| < |d| || c.server.buf == [])
    case Sending(start, sent) =>
      TransferGood(d, s, c, start, sent) && c.toClient == (if c.server.Idle? then [Final(true)] else [])
    case AwaitFinal(start) =>
      TransferGood(d, s, c, start, |ChunksOf(d, start)|) && c.toClient == (if c.server.Idle? then [Final(true)] else [])
    case Finished(start, ok) =>
      TransferGood(d, s, c, start, |ChunksOf(d, start)|) && c.server.Idle? && c.toClient == [] && ok
  }

  predicate Inv(d: Bytes, s: State) {
    PartialGood(d, s.partial) && (s.conn.Some? ==> ConnGood(d, s, s.conn.value))
  }

  lemma {:induction false} MergeNext(d: Bytes, start: nat, k: nat)
    requires start <= |d| && k < |ChunksOf(d, start)|
    ensures var c := ChunksOf(d, start)[k];
            Cut(d, start, k) <= Cut(d, start, k + 1) <= |d| &&
            Written(d[..Cut(d, start, k)], c.offset, c.data) == d[..Cut(d, start, k + 1)] &&
            (c.eof <==> k + 1 == |ChunksOf(d, start)|) && (c.eof ==> Cut(d, start, k + 1) == |d|)
  {
    ChunkAt(d, start, k);
  }

  lemma {:induction false} TakeChunkKeepsInv(sha: Upload.Hash, d: Bytes, s: State)
    requires Inv(d, s) && Enabled(d, s, TakeChunk)
    ensures Inv(d, After(sha, d, s, TakeChunk))
  {
    var c := s.conn.value;
    if !c.client.AwaitResume? {
      var start := c.client.start;
      var sent := if c.client.Sending? then c.client.sent else |ChunksOf(d, start)|;
      TransitHead(d, start, c.taken, sent);
      MergeNext(d, start, c.taken);
      hide ChunksOf, Written, Transit, Cut;
    }
  }

  lemma {:induction false} TransitHead(d: Bytes, start: nat, i: nat, j: nat)
    requires i <= j <= |ChunksOf(d, start)| && Transit(d, start, i, j) != []
    ensures i < j && Transit(d, start, i, j)[0] == ChunkMsg(ChunksOf(d, start)[i])
    ensures Transit(d, start, i, j)[1..] == Transit(d, start, i + 1, j)
  {
    hide ChunksOf;
  }

  lemma {:induction false} SendChunkKeepsInv(sha: Upload.Hash, d: Bytes, s: State)
    requires Inv(d, s) && Enabled(d, s, SendChunk)
    ensures Inv(d, After(sha, d, s, SendChunk))
  {
    hide ChunksOf;
    var c := s.conn.value;
    var start, k := c.client.start, c.client.sent;
    assert c.toServer + [ChunkMsg(ChunksOf(d, start)[k])] == Transit(d, start, c.taken, k + 1);
    assert c.wire + [ChunksOf(d, start)[k]] == ChunksOf(d, start)[..k + 1];
  }

  lemma {:induction false} TakeResumeKeepsInv(sha: Upload.Hash, d: Bytes, s: State)
    requires Inv(d, s) && Enabled(d, s, TakeResume)
    ensures Inv(d, After(sha, d, s, TakeResume))
  {
    var c := s.conn.value;
    var start := |c.server.buf|;
    ChunksCarryRest(d, start);
    hide ChunksOf;
    assert Cut(d, start, 0) == start;
    assert Transit(d, start, 0, 0) == [];
    assert c.server.buf == d[..start];
    assert c.wire == ChunksOf(d, start)[..0];
  }

  lemma {:induction false} StepKeepsInv(sha: Upload.Hash, d: Bytes, s: State, e: Event)
    requires Inv(d, s) && Enabled(d, s, e)
    ensures Inv(d, After(sha, d, s, e))
  {
    hide ChunksOf, Written;
    match e
    case TakeChunk => TakeChunkKeepsInv(sha, d, s);
    case SendChunk => SendChunkKeepsInv(sha, d, s);
    case TakeResume => TakeResumeKeepsInv(sha, d, s);
    case Mirror(_) => MirrorKeepsInv(sha, d, s, e);
    case _ =>
  }

  lemma {:induction false} MirrorKeepsInv(sha: Upload.Hash, d: Bytes, s: State, e: Event)
    requires Inv(d, s) && e.Mirror? && Enabled(d, s, e)
    ensures Inv(d, After(sha, d, s, e))
  {
    var c := s.conn.value;
    if !c.client.AwaitResume? {
      MergeNext(d, c.client.start, c.taken - 1);
      hide ChunksOf, Written;
    }
  }

  predicate IsStart(d: Bytes, s: State) {
    s.conn == None && PartialGood(d, s.partial)
  }

  lemma {:induction false} ReachableInv(sha: Upload.Hash, d: Bytes, start: State, es: seq<Event>, s: State)
    requires IsStart(d, start) && Follow(sha, d, start, es) == Some(s)
    ensures Inv(d, s)
  {
    hide Inv, ChunksOf;
    if es != [] {
      var mid := Follow(sha, d, start, es[..|es| - 1]).value;
      ReachableInv(sha, d, start, es[..|es| - 1], mid);
      StepKeepsInv(sha, d, mid, es[|es| - 1]);
    } else {
      StartInv(d, s);
    }
  }

  lemma {:induction false} StartInv(d: Bytes, s: State)
    requires IsStart(d, s)
    ensures Inv(d, s)
  {
  }

  // Uploads survive interruption. However attempts are cut off and writes torn, the partial file is
  // absent or a prefix of the data; and an attempt that runs to its end is accepted, with the file
  // equal to the data, after sending exactly the part of it that the provider did not hold.
  lemma {:induction false} UploadSurvives(sha: Upload.Hash, d: Bytes, start: State, es: seq<Event>, s: State)
    requires IsStart(d, start) && Follow(sha, d, start, es) == Some(s)
    ensures PartialGood(d, s.partial)
    ensures s.conn.Some? && s.conn.value.client.Finished? ==>
              var c := s.conn.value;
              c.client.ok && s.dest == Some(d) && c.held.Some? && c.client.start == |c.held.value| &&
              c.held.value + Datas(c.wire) == d
    ensures s.conn.Some? ==> Final(false) !in s.conn.value.toClient
  {
    ReachableInv(sha, d, start, es, s);
    if s.conn.Some? && s.conn.value.client.Finished? {
      var c := s.conn.value;
      var start := c.client.start;
      ChunksCarryRest(d, start);
      assert c.wire == ChunksOf(d, start);
      assert d == d[..start] + d[start..];
    }
  }

  // ---- The same provider as in Upload, step by step ----

  // The disk of the provider, seen at one destination.
  predicate Shows(disk: Upload.Disk, at: Paths.Dest, s: State) {
    s.dest == (if at in disk.files then Some(disk.files[at]) else None) &&
    s.partial == (if at in disk.partials then Some(disk.partials[at]) else None)
  }

  lemma {:induction false} FollowLast(sha: Upload.Hash, d: Bytes, start: State, es: seq<Event>, e: Event)
    requires Follow(sha, d, start, es).Some? && Enabled(d, Follow(sha, d, start, es).value, e)
    ensures Follow(sha, d, start, es + [e]) == Some(After(sha, d, Follow(sha, d, start, es).value, e))
  {
    assert (es + [e])[..|es|] == es;
  }

  function LastSteps(): seq<Event> {
    [Store] + [CheckHash] + [RemovePartial(true)] + [SendFinal]
  }

  // Handling an offer is taking it: the same buffer, the same resume point, no file touched.
  lemma {:induction false} OfferIsStep(sha: Upload.Hash, d: Bytes, s: State, sv: Upload.Server,
                                       tid: string, path: string,
                                       at: Paths.Dest)
    requires Enabled(d, s, TakeOffer) && Shows(sv.disk, at, s)
    requires Paths.UploadDest(path, tid) == Ok(at) && !Upload.Blocked(sv.disk, at)
    ensures var h := Upload.HandleOffer(sv, Upload.Offer(tid, path, |d|, sha(d)));
            var s' := After(sha, d, s, TakeOffer);
            h.Handled? && h.reply.Some? && h.reply.value.resumeFrom.Some? && tid in h.server.uploads &&
            h.server.uploads[tid].offer.sha == sha(d) && Shows(h.server.disk, at, s') &&
            s'.conn.value.server == Open(h.server.uploads[tid].buf) &&
            s'.conn.value.toClient == s.conn.value.toClient + [Resume(h.reply.value.resumeFrom.value)]
  {
    hide Paths.UploadDest, Upload.Parents;
  }

  // Handling a chunk is these steps without interruption: the disk and the verdict are the same.
  lemma {:induction false} HandlerIsSteps(sha: Upload.Hash, d: Bytes, s: State, sv: Upload.Server,
                                          tid: string, at: Paths.Dest)
    requires Enabled(d, s, TakeChunk) && tid in sv.uploads && sv.uploads[tid].buf == s.conn.value.server.buf
    requires sv.uploads[tid].offer.sha == sha(d) != "" && Paths.UploadDest(sv.uploads[tid].offer.path, tid) == Ok(at)
    requires Shows(sv.disk, at, s) && Upload.Storable(sv.disk, at)
    ensures var chunk := s.conn.value.toServer[0].chunk;
            var buf := Written(s.conn.value.server.buf, chunk.offset, chunk.data);
            var es := [TakeChunk, Mirror(Some(buf))] + if chunk.eof then LastSteps() else [];
            var h := Upload.HandleChunk(sha, sv, tid, chunk);
            var s' := Follow(sha, d, s, es);
            h.Handled? && s'.Some? && s'.value.conn.Some? && Shows(h.server.disk, at, s'.value) &&
            (if chunk.eof then
               h.reply.Some? &&
               s'.value.conn.value.toClient == s.conn.value.toClient + [Final(h.reply.value.ok)]
             else
               h.reply == None && tid in h.server.uploads &&
               s'.value.conn.value.server == Open(h.server.uploads[tid].buf))
  {
    hide Paths.UploadDest, Written, ChunksOf, Upload.EqIgnoreCase, Upload.Parents;
    var chunk := s.conn.value.toServer[0].chunk;
    var buf := Written(s.conn.value.server.buf, chunk.offset, chunk.data);
    FollowLast(sha, d, s, [], TakeChunk);
    assert [] + [TakeChunk] == [TakeChunk];
    FollowLast(sha, d, s, [TakeChunk], Mirror(Some(buf)));
    var es := [TakeChunk] + [Mirror(Some(buf))];
    assert es == [TakeChunk, Mirror(Some(buf))];
    if chunk.eof {
      FinishIsSteps(sha, d, s, es);
    } else {
      assert es + [] == es;
    }
  }

  lemma {:induction false} FinishIsSteps(sha: Upload.Hash, d: Bytes, s: State, es: seq<Event>)
    requires Follow(sha, d, s, es).Some?
    requires var m := Follow(sha, d, s, es).value; m.conn.Some? && m.conn.value.server.Storing?
    ensures var m := Follow(sha, d, s, es).value;
            var data := m.conn.value.server.data;
            var ok := Upload.HashMatches(sha, data, sha(d));
            Follow(sha, d, s, es + LastSteps()) ==
            Some(State(if ok then Some(data) else None, None,
                       Some(m.conn.value.(server := Idle, toClient := m.conn.value.toClient + [Final(ok)]))))
  {
    hide Upload.HashMatches;
    FollowLast(sha, d, s, es, Store);
    FollowLast(sha, d, s, es + [Store], CheckHash);
    FollowLast(sha, d, s, es + [Store] + [CheckHash], RemovePartial(true));
    FollowLast(sha, d, s, es + [Store] + [CheckHash] + [RemovePartial(true)], SendFinal);
    assert es + LastSteps() == es + [Store] + [CheckHash] + [RemovePartial(true)] + [SendFinal];
  }

  // Wherever earlier attempts were cut off, the next one that is not is accepted.
  lemma {:induction false} RetrySucceeds(sha: Upload.Hash, d: Bytes, start: State, es: seq<Event>, s: State,
                                         sv: Upload.Server, tid: string, path: string, at: Paths.Dest)
    requires Upload.Faithful(sha) && IsStart(d, start) && Follow(sha, d, start, es) == Some(s)
    requires Paths.UploadDest(path, tid) == Ok(at) && Shows(sv.disk, at, s) && Upload.Storable(sv.disk, at)
    ensures var h := Upload.Attempt(sha, sv, tid, path, d);
            h.Handled? && h.reply == Some(Upload.Reply(tid, true, None)) &&
            at in h.server.disk.files && h.server.disk.files[at] == d && at !in h.server.disk.partials
  {
    hide Paths.UploadDest, Upload.Attempt;
    ReachableInv(sha, d, start, es, s);
    Upload.AttemptOutcome(sha, sv, tid, path, d, at);
  }

  // ---- An attempt that is left alone ends ----

  function ClientRank(c: Client): nat {
    match c
    case AwaitResume => 3
    case Sending(_, _) => 2
    case AwaitFinal(_) => 1
    case Finished(_, _) => 0
  }

  function ServerRank(sv: Server): nat {
    match sv
    case Mirroring(_, _) => 6
    case Storing(_) => 5
    case Checking(_) => 4
    case Cleaning(_) => 3
    case Replying(_) => 2
    case Idle => 1
    case Open(_) => 0
  }

  function Unsent(d: Bytes, c: Client): nat {
    if c.Sending? && c.sent <= |ChunksOf(d, c.start)| then |ChunksOf(d, c.start)| - c.sent else 0
  }

  // No disturbance: nobody disconnects and no write fails.
  predicate Undisturbed(e: Event) {
    !e.Disconnect? && !e.TornStore? && (e.Mirror? ==> e.written.Some?) && (e.RemovePartial? ==> e.removed)
  }

  // The work that is left: of the uploader, on the wire, of the provider.
  ghost predicate Less(d: Bytes, c: Connection, c': Connection) {
    ClientRank(c.client) < ClientRank(c'.client) ||
    (ClientRank(c.client) == ClientRank(c'.client) &&
     (Unsent(d, c.client) < Unsent(d, c'.client) ||
      (Unsent(d, c.client) == Unsent(d, c'.client) &&
       (|c.toServer| < |c'.toServer| ||
        (|c.toServer| == |c'.toServer| && ServerRank(c.server) < ServerRank(c'.server))))))
  }

  // What comes next if nothing goes wrong.
  function Next(d: Bytes, c: Connection): Event {
    if c.client.AwaitResume? then (if c.toServer != [] then TakeOffer else TakeResume)
    else
      match c.server
      case Mirroring(buf, _) => Mirror(Some(buf))
      case Storing(_) => Store
      case Checking(_) => CheckHash
      case Cleaning(_) => RemovePartial(true)
      case Replying(_) => SendFinal
      case _ =>
        if c.server.Open? && c.toServer != [] then TakeChunk
        else if Unsent(d, c.client) > 0 then SendChunk
        else if c.client.Sending? then AllSent
        else TakeFinal
  }

  lemma {:induction false} NextIsEnabled(d: Bytes, s: State)
    requires Inv(d, s) && s.conn.Some? && !s.conn.value.client.Finished?
    ensures Enabled(d, s, Next(d, s.conn.value)) && Undisturbed(Next(d, s.conn.value))
  {
    hide ChunksOf, Cut;
  }

  lemma {:induction false} NextMakesProgress(sha: Upload.Hash, d: Bytes, s: State)
    requires Inv(d, s) && s.conn.Some? && !s.conn.value.client.Finished? && Enabled(d, s, Next(d, s.conn.value))
    ensures var t := After(sha, d, s, Next(d, s.conn.value));
            t.conn.Some? && Less(d, t.conn.value, s.conn.value)
  {
    hide ChunksOf, Cut, Written, Upload.HashMatches;
  }

  lemma {:induction false} Prepend(sha: Upload.Hash, d: Bytes, s: State, e: Event, es: seq<Event>)
    requires Enabled(d, s, e)
    ensures Follow(sha, d, s, [e] + es) == Follow(sha, d, After(sha, d, s, e), es)
  {
    hide After, Enabled;
    if es == [] {
      FollowLast(sha, d, s, [], e);
      assert [] + [e] == [e] == [e] + es;
    } else {
      var before, last := es[..|es| - 1], es[|es| - 1];
      Prepend(sha, d, s, e, before);
      assert ([e] + es)[..|es|] == [e] + before && ([e] + es)[|es|] == last;
    }
  }

  // From every reachable state of an attempt, wherever it is, the attempt comes to its end if nothing
  // disturbs it, and then it is accepted and the file is the data.
  lemma {:induction false} AttemptCanFinish(sha: Upload.Hash, d: Bytes, s: State) returns (es: seq<Event>)
    requires Inv(d, s) && s.conn.Some?
    ensures forall k :: 0 <= k < |es| ==> Undisturbed(es[k])
    ensures var t := Follow(sha, d, s, es);
            t.Some? && t.value.conn.Some? && t.value.conn.value.client.Finished? && t.value.conn.value.client.ok &&
            t.value.dest == Some(d)
    decreases ClientRank(s.conn.value.client), Unsent(d, s.conn.value.client), |s.conn.value.toServer|,
              ServerRank(s.conn.value.server)
  {
    es := [];
    if !s.conn.value.client.Finished? {
      hide ChunksOf, Cut, Next, Unsent, Undisturbed, After, Enabled;
      var e := Next(d, s.conn.value);
      NextIsEnabled(d, s);
      NextMakesProgress(sha, d, s);
      StepKeepsInv(sha, d, s, e);
      hide Inv;
      var rest := AttemptCanFinish(sha, d, After(sha, d, s, e));
      Prepend(sha, d, s, e, rest);
      es := [e] + rest;
    }
  }

  // So after any number of interrupted attempts a new one can connect and be accepted.
  lemma {:induction false} NextAttemptFinishes(sha: Upload.Hash, d: Bytes, start: State, es: seq<Event>, s: State)
    returns (more: seq<Event>)
    requires IsStart(d, start) && Follow(sha, d, start, es) == Some(s) && s.conn == None
    ensures forall k :: 0 <= k < |more| ==> Undisturbed(more[k])
    ensures var t := Follow(sha, d, s, [Connect] + more);
            t.Some? && t.value.conn.Some? && t.value.conn.value.client.Finished? && t.value.conn.value.client.ok &&
            t.value.dest == Some(d)
  {
    ReachableInv(sha, d, start, es, s);
    StepKeepsInv(sha, d, s, Connect);
    hide Inv, Follow;
    more := AttemptCanFinish(sha, d, After(sha, d, s, Connect));
    Prepend(sha, d, s, Connect, more);
  }
}
