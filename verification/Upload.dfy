/** The provider's side of a resumable upload, a whole upload attempt, and copying a file there and back. */
module Upload {
  import opened Base
  import opened Chunks
  import opened Paths

  // SHA-256 in hexadecimal, kept abstract.
  type Hash = Bytes -> string

  datatype Offer = Offer(transferId: string, path: string, size: nat, sha: string)

  datatype Transfer = Transfer(offer: Offer, buf: Bytes)

  // Finished files, the `.partial` file beside each of them, and the directories that exist.
  datatype Disk = Disk(files: map<Dest, Bytes>, partials: map<Dest, Bytes>, dirs: set<Dest>)

  datatype Server = Server(uploads: map<string, Transfer>, disk: Disk)

  datatype Reply = Reply(transferId: string, ok: bool, resumeFrom: Option<nat>)

  // A handler either goes on, perhaps with a reply, or ends the session with a fault.
  datatype Handled = Handled(server: Server, reply: Option<Reply>) | SessionEnds(disk: Disk, fault: Paths.Fault)

  function Lower(c: char): char {
    if 'A' <= c <= 'Z' then c - 'A' + 'a' else c
  }

  predicate EqIgnoreCase(a: string, b: string) {
    |a| == |b| && forall i :: 0 <= i < |a| ==> Lower(a[i]) == Lower(b[i])
  }

  predicate HashMatches(sha: Hash, data: Bytes, offered: string) {
    offered == "" || EqIgnoreCase(sha(data), offered)
  }

  // ---- Files and directories ----

  // The directories on the way to a file.
  function Parents(d: Dest): set<Dest> {
    if d.JobFile? then {} else set k | 0 < k < |d.segments| :: Incoming(d.segments[..k])
  }

  // Names with a NUL character never reach the file system.
  predicate NulFree(name: string) {
    '\0' !in name
  }

  // What keeps the directories on the way from being there or being created, if anything: a NUL character
  // in one of their names, or a file in the way.
  function Obstacle(disk: Disk, d: Dest): Option<Paths.Fault> {
    if d.JobFile? then (if NulFree(d.id) then None else Some(InvalidName))
    else if exists k :: 0 <= k < |d.segments| - 1 && !NulFree(d.segments[k]) then Some(InvalidName)
    else if exists p :: p in Parents(d) && p in disk.files then Some(NotADirectory)
    else None
  }

  predicate Blocked(disk: Disk, d: Dest) {
    Obstacle(disk, d).Some?
  }

  predicate NameIsValid(d: Dest) {
    d.JobFile? || d.segments == [] || NulFree(d.segments[|d.segments| - 1])
  }

  // Why fs::write cannot create or replace the file, if it cannot.
  function StoreFault(disk: Disk, d: Dest): Option<Paths.Fault> {
    if !NameIsValid(d) then Some(InvalidName)
    else if d.Inside? || d in disk.dirs then Some(IsADirectory)
    else None
  }

  predicate CanStore(disk: Disk, d: Dest) {
    StoreFault(disk, d).None?
  }

  // fs::write can create or replace the partial file.
  predicate CanMirror(disk: Disk, d: Dest) {
    NameIsValid(d) && (d.Inside? ==> Incoming(d.segments) in disk.dirs)
  }

  // Nothing on the disk clashes with a file at d.
  predicate Storable(disk: Disk, d: Dest) {
    !Blocked(disk, d) && CanStore(disk, d)
  }

  // Where an upload goes; the directories on the way are created.
  function Locate(disk: Disk, path: string, tid: string): Result<Dest, Paths.Fault> {
    match UploadDest(path, tid)
    case Err(f) => Err(f)
    case Ok(d) =>
      (match Obstacle(disk, d)
       case Some(f) => Err(f)
       case None => Ok(d))
  }

  function WithParents(disk: Disk, d: Dest): Disk {
    disk.(dirs := disk.dirs + Parents(d))
  }

  // The buffer is mirrored to the partial file; a failure is ignored.
  function Mirrored(disk: Disk, d: Dest, buf: Bytes): Disk {
    WithParents(disk, d).(partials := if CanMirror(disk, d) then disk.partials[d := buf] else disk.partials)
  }

  lemma {:induction false} NotOwnParent(d: Dest)
    ensures d !in Parents(d) && (d.Inside? ==> Incoming(d.segments) !in Parents(d))
  {
  }

  // Directories on the way and a partial file beside it change nothing about where an upload goes.
  lemma {:induction false} MirroringIsNoObstacle(disk: Disk, d: Dest, buf: Bytes, path: string, tid: string)
    ensures CanMirror(WithParents(disk, d), d) == CanMirror(disk, d)
    ensures var mirrored := Mirrored(disk, d, buf);
            Locate(mirrored, path, tid) == Locate(disk, path, tid) && StoreFault(mirrored, d) == StoreFault(disk, d) &&
            WithParents(mirrored, d) == mirrored
  {
    NotOwnParent(d);
    hide Parents, UploadDest;
    assert disk.dirs + Parents(d) + Parents(d) == disk.dirs + Parents(d);
  }

  // ---- The handlers ----

  function HandleOffer(sv: Server, o: Offer): Handled {
    match Locate(sv.disk, o.path, o.transferId)
    case Err(f) => SessionEnds(sv.disk, f)
    case Ok(d) =>
      var buf := if d in sv.disk.partials && |sv.disk.partials[d]| < o.size then sv.disk.partials[d] else [];
      Handled(Server(sv.uploads[o.transferId := Transfer(o, buf)], WithParents(sv.disk, d)),
              Some(Reply(o.transferId, true, Some(|buf|))))
  }

  // All bytes are there: the file stays if its hash is the offered one, and the partial file goes.
  // If it cannot be stored the session ends, and the partial file stays.
  function Finish(sha: Hash, sv: Server, tid: string, o: Offer, d: Dest, data: Bytes): Handled {
    if !CanStore(sv.disk, d) then SessionEnds(Mirrored(sv.disk, d, data), StoreFault(sv.disk, d).value)
    else
      var ok := HashMatches(sha, data, o.sha);
      var files := if ok then sv.disk.files[d := data] else sv.disk.files - {d};
      Handled(Server(sv.uploads - {tid}, WithParents(Disk(files, sv.disk.partials - {d}, sv.disk.dirs), d)),
              Some(Reply(tid, ok, None)))
  }

  function HandleChunk(sha: Hash, sv: Server, tid: string, c: Chunk): Handled {
    if tid !in sv.uploads then Handled(sv, None)
    else
      var o := sv.uploads[tid].offer;
      var buf := Written(sv.uploads[tid].buf, c.offset, c.data);
      match Locate(sv.disk, o.path, tid)
      case Err(f) =>
        if c.eof then SessionEnds(sv.disk, f) else Handled(sv.(uploads := sv.uploads[tid := Transfer(o, buf)]), None)
      case Ok(d) =>
        if c.eof then Finish(sha, sv, tid, o, d, buf)
        else Handled(Server(sv.uploads[tid := Transfer(o, buf)], Mirrored(sv.disk, d, buf)), None)
  }

  // The session loop's upload state, updated in place and mirrored to disk after every chunk.
  class UploadSession {
    const sha: Hash
    var uploads: map<string, Transfer>
    var files: map<Dest, Bytes>
    var partials: map<Dest, Bytes>
    var dirs: set<Dest>

    ghost function State(): Server
      reads this
    {
      Server(uploads, Disk(files, partials, dirs))
    }

    constructor (sha: Hash, disk: Disk)
      ensures this.sha == sha && State() == Server(map[], disk)
    {
      this.sha := sha;
      uploads := map[];
      files := disk.files;
      partials := disk.partials;
      dirs := disk.dirs;
    }

    // upload_dest: the checks on the path, then the directories are created or found to be in the way.
    method FindDest(path: string, tid: string) returns (r: Result<Dest, Paths.Fault>)
      modifies this`dirs
      ensures r == Locate(old(State()).disk, path, tid)
      ensures State() == if r.Ok? then old(State()).(disk := WithParents(old(State()).disk, r.value)) else old(State())
    {
      var dest := UploadDest(path, tid);
      if dest.Err? {
        return Err(dest.error);
      }
      var d, parents := dest.value, Parents(dest.value);
      if d.JobFile? && !NulFree(d.id) {
        return Err(InvalidName);
      }
      if !d.JobFile? && exists k :: 0 <= k < |d.segments| - 1 && !NulFree(d.segments[k]) {
        return Err(InvalidName);
      }
      if exists p :: p in parents && p in files {
        return Err(NotADirectory);
      }
      dirs := dirs + parents;
      return Ok(dest.value);
    }

    method OnOffer(offer: Offer) returns (r: Result<Option<Reply>, Paths.Fault>)
      modifies this`uploads, this`dirs
      ensures match HandleOffer(old(State()), offer)
              case SessionEnds(disk, f) => r == Err(f) && State().disk == disk
              case Handled(sv, reply) => r == Ok(reply) && State() == sv
    {
      hide Locate, Obstacle, StoreFault;
      var dest := FindDest(offer.path, offer.transferId);
      if dest.Err? {
        return Err(dest.error);
      }
      var resumeFrom := 0;
      var buf := [];
      if dest.value in partials {
        var existing := partials[dest.value];
        if |existing| < offer.size {
          resumeFrom := |existing|;
          buf := existing;
        }
      }
      uploads := uploads[offer.transferId := Transfer(offer, buf)];
      return Ok(Some(Reply(offer.transferId, true, Some(resumeFrom))));
    }

    method OnChunk(tid: string, chunk: Chunk) returns (r: Result<Option<Reply>, Paths.Fault>)
      modifies this
      ensures match HandleChunk(sha, old(State()), tid, chunk)
              case SessionEnds(disk, f) => r == Err(f) && State().disk == disk
              case Handled(sv, reply) => r == Ok(reply) && State() == sv
    {
      hide Written, Locate, Parents, StoreFault, CanMirror, HashMatches;
      if tid !in uploads {
        return Ok(None);
      }
      var transfer := uploads[tid];
      var buf := MergeChunk(transfer.buf, chunk);
      uploads := uploads[tid := transfer.(buf := buf)];
      var dest := FindDest(transfer.offer.path, tid);
      if dest.Ok? {
        MirrorBuffer(dest.value, buf);
        MirroringIsNoObstacle(old(State()).disk, dest.value, buf, transfer.offer.path, tid);
        assert State().disk == Mirrored(old(State()).disk, dest.value, buf);
      }
      if chunk.eof {
        assert uploads - {tid} == old(uploads) - {tid};
        uploads := uploads - {tid};
        r := StoreFile(tid, transfer.offer, buf);
      } else {
        r := Ok(None);
      }
    }

    method MirrorBuffer(dest: Dest, buf: Bytes)
      modifies this`partials
      ensures partials == if CanMirror(old(State()).disk, dest) then old(partials)[dest := buf] else old(partials)
    {
      if !NameIsValid(dest) || (dest.Inside? && Incoming(dest.segments) !in dirs) {
        return;
      }
      partials := partials[dest := buf];
    }

    // The end of a transfer: find the place once more, write, check, clean up.
    method StoreFile(tid: string, offer: Offer, data: Bytes) returns (r: Result<Option<Reply>, Paths.Fault>)
      modifies this`files, this`partials, this`dirs
      ensures match Locate(old(State()).disk, offer.path, tid)
              case Err(f) => r == Err(f) && State() == old(State())
              case Ok(d) =>
                var disk := WithParents(old(State()).disk, d);
                if !CanStore(disk, d) then r == Err(StoreFault(disk, d).value) && State() == old(State()).(disk := disk)
                else
                  var ok := HashMatches(sha, data, offer.sha);
                  r == Ok(Some(Reply(tid, ok, None))) &&
                  State() == old(State()).(disk := disk.(
                    files := if ok then disk.files[d := data] else disk.files - {d},
                    partials := disk.partials - {d}))
    {
      hide Locate, EqIgnoreCase, NulFree;
      var dest := FindDest(offer.path, tid);
      if dest.Err? {
        return Err(dest.error);
      }
      if !NameIsValid(dest.value) {
        return Err(InvalidName);
      }
      if dest.value.Inside? || dest.value in dirs {
        return Err(IsADirectory);
      }
      files := files[dest.value := data];
      var hashOk := offer.sha == "" || EqIgnoreCase(sha(data), offer.sha);
      if !hashOk {
        assert files - {dest.value} == old(files) - {dest.value};
        files := files - {dest.value};
      }
      partials := partials - {dest.value};
      return Ok(Some(Reply(tid, hashOk, None)));
    }
  }

  // ---- What the handlers leave alone ----

  // A chunk of an unknown transfer is ignored.
  lemma {:induction false} UnknownTransferIsIgnored(sha: Hash, sv: Server, tid: string, c: Chunk)
    requires tid !in sv.uploads
    ensures HandleChunk(sha, sv, tid, c) == Handled(sv, None)
  {
  }

  // Other transfers, and the files of other destinations, are as before.
  ghost predicate OthersKept(sv: Server, sv': Server, tid: string, d: Dest) {
    && (forall t :: t != tid ==>
         (t in sv.uploads <==> t in sv'.uploads) && (t in sv.uploads ==> sv'.uploads[t] == sv.uploads[t]))
    && (forall x :: x != d ==> (x in sv.disk.files <==> x in sv'.disk.files) &&
                               (x in sv.disk.files ==> sv'.disk.files[x] == sv.disk.files[x]))
    && (forall x :: x != d ==> (x in sv.disk.partials <==> x in sv'.disk.partials) &&
                               (x in sv.disk.partials ==> sv'.disk.partials[x] == sv.disk.partials[x]))
    && sv.disk.dirs <= sv'.disk.dirs
  }

  lemma {:induction false} HandlersKeepOthers(sha: Hash, sv: Server, o: Offer, c: Chunk, d: Dest)
    requires UploadDest(o.path, o.transferId) == Ok(d)
    ensures HandleOffer(sv, o).Handled? ==> OthersKept(sv, HandleOffer(sv, o).server, o.transferId, d)
    ensures o.transferId in sv.uploads && sv.uploads[o.transferId].offer == o &&
            HandleChunk(sha, sv, o.transferId, c).Handled? ==>
              OthersKept(sv, HandleChunk(sha, sv, o.transferId, c).server, o.transferId, d)
  {
    hide UploadDest, HashMatches, Parents, Obstacle, StoreFault, CanMirror, Written;
  }

  // ---- The hash check ----

  function UpperChar(c: char): char {
    if 'a' <= c <= 'z' then c - 'a' + 'A' else c
  }

  function Upper(s: string): (u: string)
    ensures |u| == |s| && forall i :: 0 <= i < |s| ==> u[i] == UpperChar(s[i])
  {
    seq(|s|, i requires 0 <= i < |s| => UpperChar(s[i]))
  }

  predicate HasNoCapital(s: string) {
    forall i :: 0 <= i < |s| ==> !('A' <= s[i] <= 'Z')
  }

  lemma {:induction false} CaseOfChar(c: char)
    requires !('A' <= c <= 'Z')
    ensures Lower(c) == c && Lower(UpperChar(c)) == c
  {
  }

  lemma {:induction false} CaseOfString(a: string, b: string)
    requires HasNoCapital(a) && HasNoCapital(b)
    ensures EqIgnoreCase(a, b) <==> a == b
    ensures EqIgnoreCase(a, Upper(b)) <==> a == b
  {
    forall i | 0 <= i < |a|
      ensures Lower(a[i]) == a[i]
    {
      CaseOfChar(a[i]);
    }
    forall i | 0 <= i < |b|
      ensures Lower(b[i]) == b[i] && Lower(Upper(b)[i]) == b[i]
    {
      CaseOfChar(b[i]);
    }
    hide Lower, UpperChar, Upper;
    if EqIgnoreCase(a, b) || EqIgnoreCase(a, Upper(b)) {
      assert forall i :: 0 <= i < |a| ==> a[i] == b[i];
    }
  }

  // A hash, which is written in small letters, matches exactly the same hash in small or capital letters,
  // and no hash at all.
  lemma {:induction false} HashMatchesItself(sha: Hash, data: Bytes, offered: string)
    requires HasNoCapital(sha(data)) && HasNoCapital(offered)
    ensures HashMatches(sha, data, offered) <==> offered == "" || sha(data) == offered
    ensures HashMatches(sha, data, Upper(offered)) <==> offered == "" || sha(data) == offered
  {
    CaseOfString(sha(data), offered);
    hide EqIgnoreCase, HasNoCapital;
    assert |Upper(offered)| == |offered|;
  }

  // ---- What clashes ----

  // A file can be stored exactly if no name on its path has a NUL character, no directory is in its place
  // and no file in the place of one of its directories; and never at a path that ends in a slash or dot.
  lemma {:induction false} StorableIff(disk: Disk, d: Dest)
    ensures d.Incoming? && d.segments != [] ==>
              (Storable(disk, d) <==>
                 (forall name :: name in d.segments ==> '\0' !in name) && d !in disk.dirs &&
                 forall k :: 0 < k < |d.segments| ==> Incoming(d.segments[..k]) !in disk.files)
    ensures d.Inside? ==> !Storable(disk, d)
    ensures d.JobFile? ==> (Storable(disk, d) <==> '\0' !in d.id && d !in disk.dirs)
  {
    if !d.JobFile? {
      assert forall p :: p in Parents(d) <==> exists k :: 0 < k < |d.segments| && p == Incoming(d.segments[..k]);
      assert forall k :: 0 < k < |d.segments| ==> Incoming(d.segments[..k]) in Parents(d);
      var n := |d.segments|;
      assert forall name :: name in d.segments ==> exists k :: 0 <= k < n && d.segments[k] == name;
      assert n > 0 ==> d.segments[n - 1] in d.segments;
      assert forall k :: 0 <= k < n - 1 ==> d.segments[k] in d.segments;
    }
  }

  // Once a file is stored, nothing can be stored inside it, and it cannot be one of its own directories.
  lemma {:induction false} StoredFilesClash(sha: Hash, sv: Server, tid: string, path: string, data: Bytes,
                                           d: Dest, q: seq<string>)
    requires Faithful(sha) && UploadDest(path, tid) == Ok(d) && d.Incoming? && q != []
    requires var up := Attempt(sha, sv, tid, path, data); up.Handled? && up.reply.Some? && up.reply.value.ok
    ensures var disk := Attempt(sha, sv, tid, path, data).server.disk;
            d.segments < q || q < d.segments ==> !Storable(disk, Incoming(q))
  {
    AcceptedIsStored(sha, sv, tid, path, data, d);
    AcceptedHasParents(sha, sv, tid, path, data, d);
    hide UploadDest, Attempt, Obstacle, StoreFault, Blocked, CanStore, Storable;
    var disk := Attempt(sha, sv, tid, path, data).server.disk;
    StorableIff(disk, Incoming(q));
    if d.segments != [] && d.segments < q {
      assert q[..|d.segments|] == d.segments;
    } else if q < d.segments {
      assert d.segments[..|q|] == q;
      assert Incoming(q) in Parents(d);
    }
  }

  lemma {:induction false} AcceptedHasParents(sha: Hash, sv: Server, tid: string, path: string, data: Bytes, d: Dest)
    requires Faithful(sha) && UploadDest(path, tid) == Ok(d)
    requires var up := Attempt(sha, sv, tid, path, data); up.Handled? && up.reply.Some? && up.reply.value.ok
    ensures Parents(d) <= Attempt(sha, sv, tid, path, data).server.disk.dirs
    ensures d.Incoming? ==> d.segments != []
  {
    hide Parents, Attempt, Filter, Split;
    if Storable(sv.disk, d) {
      AttemptOutcome(sha, sv, tid, path, data, d);
    } else {
      ClashesArePermanent(sha, sv, tid, path, data, d);
    }
  }

  // ---- One uninterrupted attempt ----

  // The provider's answer to the last chunk of a transmission.
  function DeliverChunks(sha: Hash, sv: Server, tid: string, chunks: seq<Chunk>): Handled
    decreases chunks
  {
    if chunks == [] then Handled(sv, None)
    else
      match HandleChunk(sha, sv, tid, chunks[0])
      case SessionEnds(disk, f) => SessionEnds(disk, f)
      case Handled(sv', reply) =>
        if |chunks| == 1 then Handled(sv', reply) else DeliverChunks(sha, sv', tid, chunks[1..])
  }

  // The uploader: offer, wait for the resume point, send the rest, wait for the verdict.
  function Attempt(sha: Hash, sv: Server, tid: string, path: string, data: Bytes): Handled {
    match HandleOffer(sv, Offer(tid, path, |data|, sha(data)))
    case SessionEnds(disk, f) => SessionEnds(disk, f)
    case Handled(sv', reply) =>
      var start := Min(reply.value.resumeFrom.GetOr(0), |data|);
      DeliverChunks(sha, sv', tid, ChunksOf(data, start))
  }

  // The hash tells any two files apart, and is never the empty string that switches the check off.
  ghost predicate Faithful(sha: Hash) {
    (forall x, y :: EqIgnoreCase(sha(x), sha(y)) ==> x == y) && forall x :: sha(x) != ""
  }

  lemma {:induction false} FinishForgets(sha: Hash, sv: Server, sv': Server, tid: string, o: Offer,
                                         d: Dest, data: Bytes, t: Transfer, b: Bytes)
    requires sv' == Server(sv.uploads[tid := t], Mirrored(sv.disk, d, b))
    ensures Finish(sha, sv', tid, o, d, data) == Finish(sha, sv, tid, o, d, data)
  {
    NotOwnParent(d);
    hide Parents, HashMatches;
    assert sv.uploads[tid := t] - {tid} == sv.uploads - {tid};
    assert sv.disk.partials[d := b] - {d} == sv.disk.partials - {d};
    assert sv.disk.dirs + Parents(d) + Parents(d) == sv.disk.dirs + Parents(d);
  }

  lemma {:induction false} WrittenAtEnd(buf: Bytes, data: Bytes)
    ensures Written(buf, |buf|, data) == buf + data
  {
  }

  lemma {:induction false} RestFrom(buf: Bytes, data: Bytes, end: nat)
    requires |buf| <= end <= |data|
    ensures buf + data[|buf|..end] + data[end..] == buf + data[|buf|..]
    ensures end == |data| ==> buf + data[|buf|..end] == buf + data[|buf|..]
  {
    assert data[|buf|..] == data[|buf|..end] + data[end..];
  }

  // Whatever the buffer holds when the transmission from its end begins, it ends as buffer plus rest.
  lemma {:induction false} PiecesFinish(sha: Hash, sv: Server, tid: string, data: Bytes, d: Dest)
    requires tid in sv.uploads && |sv.uploads[tid].buf| < |data|
    requires UploadDest(sv.uploads[tid].offer.path, tid) == Ok(d) && !Blocked(sv.disk, d)
    ensures var t := sv.uploads[tid];
            DeliverChunks(sha, sv, tid, Pieces(data, |t.buf|)) ==
            Finish(sha, sv, tid, t.offer, d, t.buf + data[|t.buf|..])
    decreases |data| - |sv.uploads[tid].buf|
  {
    hide UploadDest, Finish, HandleChunk, Written;
    var t := sv.uploads[tid];
    var start := |t.buf|;
    var end := Min(start + CHUNK, |data|);
    var pieces := Pieces(data, start);
    var buf := t.buf + data[start..end];
    WrittenAtEnd(t.buf, data[start..end]);
    RestFrom(t.buf, data, end);
    ChunkHandled(sha, sv, tid, pieces[0], d);
    assert pieces[1..] == Pieces(data, end);
    if end < |data| {
      var sv' := Server(sv.uploads[tid := Transfer(t.offer, buf)], Mirrored(sv.disk, d, buf));
      PiecesFinish(sha, sv', tid, data, d);
      assert |Pieces(data, end)| > 0;
      FinishForgets(sha, sv, sv', tid, t.offer, d, buf + data[end..], Transfer(t.offer, buf), buf);
    }
  }

  lemma {:induction false} ChunkHandled(sha: Hash, sv: Server, tid: string, c: Chunk, d: Dest)
    requires tid in sv.uploads && UploadDest(sv.uploads[tid].offer.path, tid) == Ok(d) && !Blocked(sv.disk, d)
    ensures var t := sv.uploads[tid];
            var buf := Written(t.buf, c.offset, c.data);
            HandleChunk(sha, sv, tid, c) ==
            if c.eof then Finish(sha, sv, tid, t.offer, d, buf)
            else Handled(Server(sv.uploads[tid := Transfer(t.offer, buf)], Mirrored(sv.disk, d, buf)), None)
  {
  }

  lemma {:induction false} DeliveredFirst(buf: Bytes, c: Chunk, chunks: seq<Chunk>)
    ensures Delivered(buf, [c] + chunks) == Delivered(Written(buf, c.offset, c.data), chunks)
  {
    hide Written;
    if chunks == [] {
      assert [c] + chunks == [c] && [c][..0] == [];
    } else {
      var before := chunks[..|chunks| - 1];
      DeliveredFirst(buf, c, before);
      assert ([c] + chunks)[..|[c] + chunks| - 1] == [c] + before;
    }
  }

  // Whatever chunks a transmission consists of, the verdict is about everything that was delivered: the
  // file is stored if its hash is the offered one, otherwise there is no file; the partial file and
  // the transfer are gone either way. Only a directory in the place of the file prevents a verdict.
  lemma {:induction false} VerdictIsAboutHash(sha: Hash, sv: Server, tid: string, chunks: seq<Chunk>, d: Dest)
    requires tid in sv.uploads && UploadDest(sv.uploads[tid].offer.path, tid) == Ok(d) && !Blocked(sv.disk, d)
    requires chunks != [] && forall k :: 0 <= k < |chunks| ==> (chunks[k].eof <==> k == |chunks| - 1)
    ensures var t := sv.uploads[tid];
            DeliverChunks(sha, sv, tid, chunks) == Finish(sha, sv, tid, t.offer, d, Delivered(t.buf, chunks))
    decreases |chunks|
  {
    hide UploadDest, Finish, HandleChunk, Written, Delivered;
    var t, c, others := sv.uploads[tid], chunks[0], chunks[1..];
    ChunkHandled(sha, sv, tid, c, d);
    DeliveredFirst(t.buf, c, others);
    assert chunks == [c] + others;
    if others == [] {
      NothingDelivered(Written(t.buf, c.offset, c.data));
    } else {
      var buf := Written(t.buf, c.offset, c.data);
      var sv' := Server(sv.uploads[tid := Transfer(t.offer, buf)], Mirrored(sv.disk, d, buf));
      assert forall k :: 0 <= k < |others| ==> others[k] == chunks[k + 1];
      VerdictIsAboutHash(sha, sv', tid, others, d);
      FinishForgets(sha, sv, sv', tid, t.offer, d, Delivered(buf, others), Transfer(t.offer, buf), buf);
    }
  }

  lemma {:induction false} NothingDelivered(buf: Bytes)
    ensures Delivered(buf, []) == buf
  {
  }

  // So chunks may come in any order, repeated and overlapping: if they are slices of the data that cover
  // what the provider does not have yet, and the marked one comes last, the upload is accepted.
  lemma {:induction false} AnyOrderIsAccepted(sha: Hash, sv: Server, tid: string, data: Bytes,
                                              chunks: seq<Chunk>, d: Dest)
    requires tid in sv.uploads && UploadDest(sv.uploads[tid].offer.path, tid) == Ok(d) && Storable(sv.disk, d)
    requires sv.uploads[tid].offer.sha == sha(data) && sv.uploads[tid].buf <= data
    requires chunks != [] && forall k :: 0 <= k < |chunks| ==> (chunks[k].eof <==> k == |chunks| - 1)
    requires forall k :: 0 <= k < |chunks| ==> IsSliceOf(chunks[k], data)
    requires forall i :: |sv.uploads[tid].buf| <= i < |data| ==> Covered(chunks, i)
    ensures DeliverChunks(sha, sv, tid, chunks) ==
            Handled(Server(sv.uploads - {tid}, Settled(sv.disk, d, Some(data))), Some(Reply(tid, true, None)))
  {
    AnyOrderRebuilds(data, sv.uploads[tid].buf, chunks);
    VerdictIsAboutHash(sha, sv, tid, chunks, d);
    hide UploadDest, Delivered, DeliverChunks;
  }

  // What an attempt leaves behind, from any disk on which nothing clashes with the file. It is accepted
  // exactly if there is no partial file, or one at least as long as the data, or one that is a prefix
  // of it. Accepted, the file is the data; rejected, there is neither file nor partial file.
  lemma {:induction false} AttemptOutcome(sha: Hash, sv: Server, tid: string, path: string, data: Bytes, d: Dest)
    requires Faithful(sha) && UploadDest(path, tid) == Ok(d) && Storable(sv.disk, d)
    ensures var partials := sv.disk.partials;
            var ok := d !in partials || |data| <= |partials[d]| || partials[d] <= data;
            Attempt(sha, sv, tid, path, data) ==
            Handled(Server(sv.uploads - {tid}, Settled(sv.disk, d, if ok then Some(data) else None)),
                    Some(Reply(tid, ok, None)))
  {
    var o := Offer(tid, path, |data|, sha(data));
    var sv' := HandleOffer(sv, o).server;
    var buf := sv'.uploads[tid].buf;
    var final := buf + data[|buf|..];
    AttemptFinishes(sha, sv, tid, path, data, d);
    hide UploadDest, Attempt, HandleOffer, Locate, Parents, Blocked;
    assert sv.uploads[tid := Transfer(o, buf)] - {tid} == sv.uploads - {tid};
    assert EqIgnoreCase(sha(final), sha(data)) <==> final == data;
    assert final[..|buf|] == buf;
    if buf <= data {
      assert final == data;
    }
  }

  // The disk after a verdict: the file or none, no partial file.
  function Settled(disk: Disk, d: Dest, file: Option<Bytes>): Disk {
    WithParents(Disk(if file.Some? then disk.files[d := file.value] else disk.files - {d},
                     disk.partials - {d}, disk.dirs), d)
  }

  lemma {:induction false} NothingWritten(buf: Bytes)
    ensures Written(buf, 0, []) == buf
  {
  }

  // An attempt that is not blocked ends with the resumed buffer and the rest of the data.
  lemma {:induction false} AttemptFinishes(sha: Hash, sv: Server, tid: string, path: string, data: Bytes, d: Dest)
    requires UploadDest(path, tid) == Ok(d) && !Blocked(sv.disk, d)
    ensures var o := Offer(tid, path, |data|, sha(data));
            var h := HandleOffer(sv, o);
            h.Handled? && tid in h.server.uploads &&
            var buf := h.server.uploads[tid].buf;
            buf == (if d in sv.disk.partials && |sv.disk.partials[d]| < |data| then sv.disk.partials[d] else []) &&
            h.server == Server(sv.uploads[tid := Transfer(o, buf)], WithParents(sv.disk, d)) &&
            Attempt(sha, sv, tid, path, data) == Finish(sha, sv, tid, o, d, buf + data[|buf|..])
  {
    var o := Offer(tid, path, |data|, sha(data));
    hide UploadDest, Parents, HashMatches, Written, Finish, HandleChunk;
    var sv' := HandleOffer(sv, o).server;
    var buf := sv'.uploads[tid].buf;
    var final := buf + data[|buf|..];
    if |buf| < |data| {
      PiecesFinish(sha, sv', tid, data, d);
    } else {
      ChunkHandled(sha, sv', tid, Chunk(0, [], true), d);
      NothingWritten(buf);
      assert buf == data == final;
    }
    OfferForgotten(sha, sv, tid, o, d, final, Transfer(o, buf));
  }

  lemma {:induction false} OfferForgotten(sha: Hash, sv: Server, tid: string, o: Offer, d: Dest,
                                          data: Bytes, t: Transfer)
    ensures Finish(sha, Server(sv.uploads[tid := t], WithParents(sv.disk, d)), tid, o, d, data) ==
            Finish(sha, sv, tid, o, d, data)
  {
    NotOwnParent(d);
    hide Parents, HashMatches;
    assert sv.uploads[tid := t] - {tid} == sv.uploads - {tid};
    assert sv.disk.dirs + Parents(d) + Parents(d) == sv.disk.dirs + Parents(d);
  }

  // A clash is permanent: if a file is in the way of a directory or the other way round, or the path ends
  // in a slash or a dot or contains a NUL character, then every attempt ends the session, stores nothing,
  // and leaves a disk on which the next one will end in the same way.
  lemma {:induction false} ClashesArePermanent(sha: Hash, sv: Server, tid: string, path: string, data: Bytes, d: Dest)
    requires UploadDest(path, tid) == Ok(d) && !Storable(sv.disk, d)
    ensures var h := Attempt(sha, sv, tid, path, data);
            h.SessionEnds? &&
            Some(h.fault) == (if Blocked(sv.disk, d) then Obstacle(sv.disk, d) else StoreFault(sv.disk, d)) &&
            h.disk.files == sv.disk.files && !Storable(h.disk, d)
  {
    hide UploadDest, Parents;
    if !Blocked(sv.disk, d) {
      AttemptFinishes(sha, sv, tid, path, data, d);
      hide Attempt, HandleOffer, Locate;
      assert !CanStore(sv.disk, d);
    }
  }

  // A stale partial file costs at most one attempt: a rejected one leaves neither file nor partial file,
  // and the next is accepted.
  lemma {:induction false} TwoAttemptsSuffice(sha: Hash, sv: Server, tid: string, tid': string,
                                              path: string, data: Bytes, d: Dest)
    requires Faithful(sha) && UploadDest(path, tid) == Ok(d) && UploadDest(path, tid') == Ok(d) && Storable(sv.disk, d)
    ensures var first := Attempt(sha, sv, tid, path, data);
            first.Handled? && first.reply.Some? &&
            (!first.reply.value.ok ==>
               d !in first.server.disk.files && d !in first.server.disk.partials &&
               var second := Attempt(sha, first.server, tid', path, data);
               second.Handled? && second.reply == Some(Reply(tid', true, None)) &&
               second.server.disk.files == sv.disk.files[d := data] && d !in second.server.disk.partials)
  {
    hide UploadDest, Attempt;
    AttemptOutcome(sha, sv, tid, path, data, d);
    var first := Attempt(sha, sv, tid, path, data);
    if !first.reply.value.ok {
      NotOwnParent(d);
      hide Parents;
      assert Storable(first.server.disk, d);
      AttemptOutcome(sha, first.server, tid', path, data, d);
      assert (sv.disk.files - {d})[d := data] == sv.disk.files[d := data];
    }
  }

  // ---- There and back ----

  // What the provider sends for a download request. Reading a directory ends the session without a word.
  // The legacy fallback below the work directory is not modelled: a missing file is refused.
  function ServeDownload(disk: Disk, path: string): seq<Chunks.Message> {
    match ResolveDownload(path)
    case Err(_) => [Ack(false)]
    case Ok(d) =>
      if d in disk.dirs then []
      else if d !in disk.files then [Ack(false)]
      else [Announce(|disk.files[d]|)] + Messages(ChunksOf(disk.files[d], 0))
  }

  function Messages(chunks: seq<Chunk>): seq<Chunks.Message> {
    if chunks == [] then [] else [Data(chunks[0])] + Messages(chunks[1..])
  }

  lemma {:induction false} ChunksInMessages(chunks: seq<Chunk>)
    ensures ChunksIn(Messages(chunks)) == chunks
  {
    if chunks != [] {
      ChunksInMessages(chunks[1..]);
      assert Messages(chunks)[1..] == Messages(chunks[1..]);
    }
  }

  // What a download brings: the file, a refusal if the path is not allowed or there is no such file, and
  // nothing at all, reported as success, for a directory.
  lemma {:induction false} DownloadOutcome(disk: Disk, path: string)
    ensures var d := ResolveDownload(path);
            Collected(ServeDownload(disk, path)) ==
            if d.Ok? && d.value in disk.dirs then Ok([])
            else if d.Ok? && d.value in disk.files then Ok(disk.files[d.value])
            else Err(Refused)
    ensures var d := ResolveDownload(path);
            d.Ok? && d.value !in disk.dirs && d.value in disk.files ==>
              |ServeDownload(disk, path)| > 0 && ServeDownload(disk, path)[0] == Announce(|disk.files[d.value]|)
  {
    var d := ResolveDownload(path);
    hide ResolveDownload, Harmless;
    if d.Ok? && d.value in disk.files && d.value !in disk.dirs {
      var data := disk.files[d.value];
      var sent := ServeDownload(disk, path);
      assert sent[1..] == Messages(ChunksOf(data, 0));
      ChunksInMessages(ChunksOf(data, 0));
      AnnouncedAndSent(ChunksOf(data, 0), |data|);
      DownloadIsPrefix(data, sent);
    }
  }

  lemma {:induction false} AnnouncedAndSent(chunks: seq<Chunk>, size: nat)
    ensures forall k :: 0 <= k < |Messages(chunks)| ==> Messages(chunks)[k].Data?
    ensures var sent := [Announce(size)] + Messages(chunks);
            forall k :: 0 <= k < |sent| ==> sent[k].Data? || Harmless(sent[k])
  {
    if chunks != [] {
      AnnouncedAndSent(chunks[1..], size);
    }
  }

  // Copying a file there and back is the identity, for every path both resolvers map to one file:
  // an accepted upload followed by a download that delivers all its chunks, among any harmless
  // messages, yields the uploaded bytes.
  lemma {:induction false} CopyThereAndBack(sha: Hash, sv: Server, tid: string, path: string, data: Bytes,
                                            received: seq<Chunks.Message>)
    requires Faithful(sha) && Agreeable(path)
    requires var up := Attempt(sha, sv, tid, path, data);
             up.Handled? && up.reply.Some? && up.reply.value.ok &&
             ChunksIn(received) == ChunksIn(ServeDownload(up.server.disk, path))
    requires forall k :: 0 <= k < |received| ==> received[k].Data? || Harmless(received[k])
    ensures Collected(received) == Ok(data)
  {
    AgreeableAgree(path, tid);
    var d := UploadDest(path, tid).value;
    hide UploadDest, Agreeable, Parents, Harmless;
    AcceptedIsStored(sha, sv, tid, path, data, d);
    var disk := Attempt(sha, sv, tid, path, data).server.disk;
    var sent := ServeDownload(disk, path);
    assert sent[1..] == Messages(ChunksOf(data, 0));
    ChunksInMessages(ChunksOf(data, 0));
    DownloadIsPrefix(data, received);
  }

  lemma {:induction false} AcceptedIsStored(sha: Hash, sv: Server, tid: string, path: string, data: Bytes, d: Dest)
    requires Faithful(sha) && UploadDest(path, tid) == Ok(d)
    requires var up := Attempt(sha, sv, tid, path, data); up.Handled? && up.reply.Some? && up.reply.value.ok
    ensures var disk := Attempt(sha, sv, tid, path, data).server.disk;
            d !in disk.dirs && d in disk.files && disk.files[d] == data
  {
    NotOwnParent(d);
    hide UploadDest, Parents, Attempt;
    if Storable(sv.disk, d) {
      AttemptOutcome(sha, sv, tid, path, data, d);
    } else {
      ClashesArePermanent(sha, sv, tid, path, data, d);
    }
  }
}
