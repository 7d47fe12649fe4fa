/** The GPK1 archive: packing a list of files and unpacking it again. */
module Archive {
  import opened Base
  import opened PackageNames
  import opened Paths
  import Upload

  // Relative path as the directory walk yields it, and content.
  datatype File = File(path: string, data: Bytes)

  datatype Entry = Entry(path: string, size: nat, sha: string)

  datatype Manifest = Manifest(files: seq<Entry>, totalBytes: nat, sha: string)

  datatype Fault = UnexpectedEof | BadMagic | BadManifest | BadName(fault: PackageNames.Fault) | Clashing

  // JSON is abstract: a writer, and a reader that may reject.
  type Writer = Manifest -> Bytes
  type Reader = Bytes -> Option<Manifest>

  const MAGIC: Bytes := [0x47, 0x50, 0x4B, 0x31]

  // A directory tree: the content of each file, by path segments. Its directories are those of its files.
  type Tree = map<seq<string>, Bytes>

  // ---- Packing ----

  // Backslashes in names become slashes.
  function EntryOf(sha: Upload.Hash, f: File): Entry {
    Entry(Slashes(f.path), |f.data|, sha(f.data))
  }

  function EntriesOf(sha: Upload.Hash, files: seq<File>): (es: seq<Entry>)
    ensures |es| == |files| && forall k :: 0 <= k < |files| ==> es[k] == EntryOf(sha, files[k])
  {
    seq(|files|, k requires 0 <= k < |files| => EntryOf(sha, files[k]))
  }

  function Contents(files: seq<File>): Bytes {
    if files == [] then [] else files[0].data + Contents(files[1..])
  }

  function ManifestOf(sha: Upload.Hash, files: seq<File>): Manifest {
    Manifest(EntriesOf(sha, files), |Contents(files)|, sha(Contents(files)))
  }

  // The manifest length is cut to 32 bits.
  function Packed(sha: Upload.Hash, write: Writer, files: seq<File>): Bytes {
    var man := write(ManifestOf(sha, files));
    MAGIC + BigEndian(|man| % U32_LIMIT) + man + Contents(files)
  }

  lemma {:induction false} ContentsLast(files: seq<File>, f: File)
    ensures Contents(files + [f]) == Contents(files) + f.data
  {
    if files == [] {
      assert (files + [f])[1..] == [];
    } else {
      assert (files + [f])[1..] == files[1..] + [f];
      ContentsLast(files[1..], f);
    }
  }

  lemma {:induction false} NoFiles(sha: Upload.Hash)
    ensures EntriesOf(sha, []) == [] && Contents([]) == []
  {
  }

  lemma {:induction false} EntriesLast(sha: Upload.Hash, files: seq<File>, f: File)
    ensures EntriesOf(sha, files + [f]) == EntriesOf(sha, files) + [EntryOf(sha, f)]
  {
  }

  method Package(sha: Upload.Hash, write: Writer, found: seq<File>) returns (manifest: Manifest, out: Bytes)
    ensures manifest == ManifestOf(sha, found)
    ensures out == Packed(sha, write, found)
  {
    hide BigEndian, Slashes, EntriesOf, Contents;
    var files: seq<Entry> := [];
    var blobs: seq<Bytes> := [];
    var total := 0;
    var hashed: Bytes := [];
    NoFiles(sha);
    for k := 0 to |found|
      invariant files == EntriesOf(sha, found[..k])
      invariant |blobs| == k && forall i :: 0 <= i < k ==> blobs[i] == found[i].data
      invariant hashed == Contents(found[..k]) && total == |hashed|
    {
      var data := found[k].data;
      hashed := hashed + data;
      total := total + |data|;
      files := files + [Entry(Slashes(found[k].path), |data|, sha(data))];
      blobs := blobs + [data];
      assert found[..k + 1] == found[..k] + [found[k]];
      ContentsLast(found[..k], found[k]);
      EntriesLast(sha, found[..k], found[k]);
    }
    assert found[..|found|] == found;
    manifest := Manifest(files, total, sha(hashed));
    var man := write(manifest);
    out := MAGIC;
    out := out + BigEndian(|man| % U32_LIMIT);
    out := out + man;
    out := AppendAll(out, blobs, found);
  }

  // The contents behind the header.
  method AppendAll(header: Bytes, blobs: seq<Bytes>, ghost found: seq<File>) returns (out: Bytes)
    requires |blobs| == |found| && forall i :: 0 <= i < |blobs| ==> blobs[i] == found[i].data
    ensures out == header + Contents(found)
  {
    out := header;
    for k := 0 to |blobs|
      invariant out == header + Contents(found[..k])
    {
      out := out + blobs[k];
      assert found[..k + 1] == found[..k] + [found[k]];
      ContentsLast(found[..k], found[k]);
    }
    assert found[..|found|] == found;
  }

  // ---- Unpacking ----

  // One path is a directory on the way to the other.
  predicate Clash(p: seq<string>, q: seq<string>) {
    p < q || q < p
  }

  // The file can be written: no directory is in its place and no file in the place of its directories.
  predicate Free(tree: Tree, p: seq<string>) {
    forall q :: q in tree ==> !Clash(p, q)
  }

  // The result, the tree it leaves, and how many bytes of the archive were not read. A failed unpack
  // keeps the files written before the failure.
  datatype Unpacked = Unpacked(result: Result<Manifest, Fault>, tree: Tree, unread: nat)

  function Extract(entries: seq<Entry>, rest: Bytes, tree: Tree): (Option<Fault>, Tree, Bytes) {
    if entries == [] then (None, tree, rest)
    else
      var e := entries[0];
      if e.size > |rest| then (Some(UnexpectedEof), tree, [])
      else
        match Sanitize(e.path)
        case Err(f) => (Some(BadName(f)), tree, rest[e.size..])
        case Ok(segments) =>
          if !Free(tree, segments) then (Some(Clashing), tree, rest[e.size..])
          else Extract(entries[1..], rest[e.size..], tree[segments := rest[..e.size]])
  }

  function Unpack(read: Reader, archive: Bytes, tree: Tree): Unpacked {
    if |archive| < 4 then Unpacked(Err(UnexpectedEof), tree, 0)
    else if archive[..4] != MAGIC then Unpacked(Err(BadMagic), tree, |archive| - 4)
    else if |archive| < 8 then Unpacked(Err(UnexpectedEof), tree, 0)
    else
      var len := FromBigEndian(archive[4..8]);
      if |archive| < 8 + len then Unpacked(Err(UnexpectedEof), tree, 0)
      else
        match read(archive[8..8 + len])
        case None => Unpacked(Err(BadManifest), tree, |archive| - 8 - len)
        case Some(m) =>
          var (fault, tree', rest) := Extract(m.files, archive[8 + len..], tree);
          Unpacked(if fault.Some? then Err(fault.value) else Ok(m), tree', |rest|)
  }

  // A file open for reading.
  class Cursor {
    var rest: Bytes

    constructor (bytes: Bytes)
      ensures rest == bytes
    {
      rest := bytes;
    }

    // Read::read_exact: all n bytes, or an error with the file at its end.
    method ReadExact(n: nat) returns (r: Option<Bytes>)
      modifies this
      ensures n <= |old(rest)| ==> r == Some(old(rest)[..n]) && rest == old(rest)[n..]
      ensures n > |old(rest)| ==> r == None && rest == []
    {
      if n <= |rest| {
        r := Some(rest[..n]);
        rest := rest[n..];
      } else {
        r := None;
        rest := [];
      }
    }
  }

  method UnpackArchive(read: Reader, archive: Bytes, dest: Tree) returns (r: Unpacked)
    ensures r == Unpack(read, archive, dest)
  {
    hide Sanitize, Free, FromBigEndian;
    var tree := dest;
    var f := new Cursor(archive);
    var magic := f.ReadExact(4);
    if magic.None? {
      return Unpacked(Err(UnexpectedEof), tree, 0);
    }
    if magic.value != MAGIC {
      return Unpacked(Err(BadMagic), tree, |f.rest|);
    }
    var len := f.ReadExact(4);
    if len.None? {
      return Unpacked(Err(UnexpectedEof), tree, 0);
    }
    assert len.value == archive[4..8];
    var manLen := FromBigEndian(len.value);
    var man := f.ReadExact(manLen);
    if man.None? {
      return Unpacked(Err(UnexpectedEof), tree, 0);
    }
    assert man.value == archive[8..8 + manLen] && f.rest == archive[8 + manLen..];
    var manifest := read(man.value);
    if manifest.None? {
      return Unpacked(Err(BadManifest), tree, |f.rest|);
    }
    var entries := manifest.value.files;
    ghost var body := f.rest;
    for k := 0 to |entries|
      invariant Extract(entries[k..], f.rest, tree) == Extract(entries, body, dest)
    {
      assert entries[k..][1..] == entries[k + 1..];
      var data := f.ReadExact(entries[k].size);
      if data.None? {
        return Unpacked(Err(UnexpectedEof), tree, 0);
      }
      var segments := Sanitize(entries[k].path);
      if segments.Err? {
        return Unpacked(Err(BadName(segments.error)), tree, |f.rest|);
      }
      if !Free(tree, segments.value) {
        return Unpacked(Err(Clashing), tree, |f.rest|);
      }
      tree := tree[segments.value := data.value];
    }
    return Unpacked(Ok(manifest.value), tree, |f.rest|);
  }

  // ---- Round trip ----

  // Unpacking accepts the name this file gets in an archive.
  predicate Accepted(f: File) {
    Sanitize(Slashes(f.path)).Ok?
  }

  function Target(f: File): seq<string>
    requires Accepted(f)
  {
    Sanitize(Slashes(f.path)).value
  }

  // All names are acceptable, and no path clashes with another or with the tree.
  ghost predicate Fits(files: seq<File>, tree: Tree) {
    && (forall k :: 0 <= k < |files| ==> Accepted(files[k]) && Free(tree, Target(files[k])))
    && (forall j, k :: 0 <= j < k < |files| ==> !Clash(Target(files[j]), Target(files[k])))
  }

  // The tree after the files have been written to it one after the other, each at its unpacked place,
  // up to the first that cannot be written.
  function Overlay(tree: Tree, files: seq<File>): Tree
    decreases files
  {
    if files == [] || !Accepted(files[0]) || !Free(tree, Target(files[0])) then tree
    else Overlay(tree[Target(files[0]) := files[0].data], files[1..])
  }

  lemma {:induction false} FitsFirst(files: seq<File>, tree: Tree)
    requires files != []
    ensures Fits(files, tree) <==>
            Accepted(files[0]) && Free(tree, Target(files[0])) &&
            Fits(files[1..], tree[Target(files[0]) := files[0].data])
  {
    hide Accepted, Target;
    var others := files[1..];
    assert forall k :: 0 <= k < |others| ==> others[k] == files[k + 1];
    assert forall k :: 0 < k < |files| ==> files[k] == others[k - 1];
    if Accepted(files[0]) && Free(tree, Target(files[0])) {
      var p := Target(files[0]);
      var tree' := tree[p := files[0].data];
      assert p in tree';
      assert forall q :: Free(tree', q) <==> Free(tree, q) && !Clash(q, p) by {
        forall q
          ensures Free(tree', q) <==> Free(tree, q) && !Clash(q, p)
        {
          assert forall r :: r in tree ==> r in tree';
        }
      }
      if Fits(others, tree') {
        forall j, k | 0 <= j < k < |files|
          ensures Accepted(files[j]) && Accepted(files[k]) && !Clash(Target(files[j]), Target(files[k]))
        {
          assert Accepted(others[k - 1]) && Free(tree', Target(others[k - 1]));
          if j > 0 {
            assert Accepted(others[j - 1]) && !Clash(Target(others[j - 1]), Target(others[k - 1]));
          }
        }
      }
    }
  }

  lemma {:induction false} ExtractPacked(sha: Upload.Hash, files: seq<File>, tree: Tree, tail: Bytes)
    ensures var (fault, tree', rest) := Extract(EntriesOf(sha, files), Contents(files) + tail, tree);
            tree' == Overlay(tree, files) && (fault.None? <==> Fits(files, tree)) && (fault.None? ==> rest == tail)
  {
    hide Sanitize, Fits, Free;
    if files == [] {
      assert Contents(files) + tail == tail;
      NothingFits(tree);
    } else {
      var f, all := files[0], Contents(files) + tail;
      assert EntriesOf(sha, files)[1..] == EntriesOf(sha, files[1..]);
      assert all[..|f.data|] == f.data;
      assert all[|f.data|..] == Contents(files[1..]) + tail;
      FitsFirst(files, tree);
      if Accepted(f) && Free(tree, Target(f)) {
        ExtractPacked(sha, files[1..], tree[Target(f) := f.data], tail);
      }
    }
  }

  lemma {:induction false} NothingFits(tree: Tree)
    ensures Fits([], tree)
  {
  }

  // The reader undoes the writer and rejects whatever is cut off before the end.
  ghost predicate ReadsBack(sha: Upload.Hash, write: Writer, read: Reader, files: seq<File>) {
    var m := ManifestOf(sha, files);
    read(write(m)) == Some(m) && forall part :: part < write(m) ==> read(part) == None
  }

  // Unpacking what was packed succeeds exactly if the manifest is shorter than 2^32 bytes and every file
  // fits. It then returns the manifest that was packed, has written every file at its place, and has
  // read the archive to its last byte; bytes behind it would be ignored.
  lemma {:induction false} UnpackOfPack(sha: Upload.Hash, write: Writer, read: Reader, files: seq<File>,
                                       tree: Tree, tail: Bytes)
    requires ReadsBack(sha, write, read, files)
    ensures var u := Unpack(read, Packed(sha, write, files) + tail, tree);
            var short := |write(ManifestOf(sha, files))| < U32_LIMIT;
            (u.result.Ok? <==> short && Fits(files, tree)) &&
            u.tree == (if short then Overlay(tree, files) else tree) &&
            (u.result.Ok? ==> u.result.value == ManifestOf(sha, files) && u.unread == |tail|)
  {
    hide ManifestOf, Extract, Overlay, Contents, Unpack, Fits, EntriesOf, BigEndian;
    var man, body := write(ManifestOf(sha, files)), Contents(files) + tail;
    EntriesAreFiles(sha, files);
    // The reader is handed as much of the manifest as the 32 bits of its length say.
    var n := |man| % U32_LIMIT;
    UnpackBody(read, man[..n], man[n..] + body, tree);
    assert Packed(sha, write, files) + tail == MAGIC + BigEndian(n) + man[..n] + (man[n..] + body);
    if |man| < U32_LIMIT {
      assert n == |man| && man[..n] == man && man[n..] + body == body;
      ExtractPacked(sha, files, tree, tail);
    } else {
      assert man[..n] < man;
    }
  }

  lemma {:induction false} UnpackBody(read: Reader, head: Bytes, rest: Bytes, tree: Tree)
    requires |head| < U32_LIMIT
    ensures var u := Unpack(read, MAGIC + BigEndian(|head|) + head + rest, tree);
            match read(head)
            case None => u == Unpacked(Err(BadManifest), tree, |rest|)
            case Some(m) =>
              var e := Extract(m.files, rest, tree);
              u == Unpacked(if e.0.Some? then Err(e.0.value) else Ok(m), e.1, |e.2|)
  {
    hide Extract;
    var archive := MAGIC + BigEndian(|head|) + head + rest;
    BigEndianRoundTrip(|head|);
    hide BigEndian, FromBigEndian;
    assert archive[..4] == MAGIC;
    assert archive[4..8] == BigEndian(|head|);
    assert archive[8..8 + |head|] == head;
    assert archive[8 + |head|..] == rest;
  }

  lemma {:induction false} EntriesAreFiles(sha: Upload.Hash, files: seq<File>)
    ensures ManifestOf(sha, files).files == EntriesOf(sha, files)
  {
  }

  // What a walk finds below one directory: relative names at different places, no file inside another.
  ghost predicate Found(files: seq<File>) {
    && (forall k :: 0 <= k < |files| ==> files[k].path != "" && files[k].path[0] != '/')
    && (forall j, k :: 0 <= j < k < |files| ==>
         Place(files[j].path) != Place(files[k].path) && !Clash(Place(files[j].path), Place(files[k].path)))
  }

  ghost predicate AllClean(files: seq<File>) {
    forall k :: 0 <= k < |files| ==> Clean(files[k].path)
  }

  // Every file is in the tree, at the place where it was found.
  ghost predicate InPlace(tree: Tree, files: seq<File>) {
    forall k :: 0 <= k < |files| ==> Place(files[k].path) in tree && tree[Place(files[k].path)] == files[k].data
  }

  lemma {:induction false} CleanFits(files: seq<File>, tree: Tree)
    requires Found(files) && AllClean(files) && forall k :: 0 <= k < |files| ==> Free(tree, Place(files[k].path))
    ensures Fits(files, tree)
    ensures forall k :: 0 <= k < |files| ==> Accepted(files[k]) && Target(files[k]) == Place(files[k].path)
  {
    hide Clean, Sanitize, Place, Free;
    forall k | 0 <= k < |files|
      ensures Accepted(files[k]) && Target(files[k]) == Place(files[k].path)
    {
      CleanStaysPut(files[k].path);
    }
  }

  // Files that fit are all written, later ones over earlier ones, and nothing else changes.
  lemma {:induction false} OverlayHolds(tree: Tree, files: seq<File>)
    requires Fits(files, tree)
    ensures var t := Overlay(tree, files);
            (forall k :: 0 <= k < |files| ==> Target(files[k]) in t) &&
            (forall k :: 0 <= k < |files| && (forall j :: k < j < |files| ==> Target(files[j]) != Target(files[k])) ==>
               t[Target(files[k])] == files[k].data) &&
            (forall p :: (forall k :: 0 <= k < |files| ==> Target(files[k]) != p) ==>
               (p in t <==> p in tree) && (p in tree ==> t[p] == tree[p]))
    decreases files
  {
    hide Fits, Accepted, Target, Free;
    if files != [] {
      var f, others := files[0], files[1..];
      FitsFirst(files, tree);
      FitsAccepts(files, tree);
      var tree' := tree[Target(f) := f.data];
      OverlayHolds(tree', others);
      var t := Overlay(tree', others);
      assert Overlay(tree, files) == t;
      assert forall k :: 0 <= k < |others| ==> others[k] == files[k + 1];
      assert forall k :: 0 < k < |files| ==> files[k] == others[k - 1];
    }
  }

  lemma {:induction false} FitsAccepts(files: seq<File>, tree: Tree)
    requires Fits(files, tree)
    ensures forall k :: 0 <= k < |files| ==> Accepted(files[k])
  {
  }

  // For clean names that do not clash with the tree, unpack of pack brings back exactly the packed files:
  // each with its content at its own place, and nothing else in the tree changes.
  lemma {:induction false} CleanComesBack(sha: Upload.Hash, write: Writer, read: Reader, files: seq<File>, tree: Tree)
    requires ReadsBack(sha, write, read, files) && |write(ManifestOf(sha, files))| < U32_LIMIT
    requires Found(files) && AllClean(files) && forall k :: 0 <= k < |files| ==> Free(tree, Place(files[k].path))
    ensures var u := Unpack(read, Packed(sha, write, files), tree);
            u.result == Ok(ManifestOf(sha, files)) && u.unread == 0 && InPlace(u.tree, files) &&
            (forall p :: (forall k :: 0 <= k < |files| ==> Place(files[k].path) != p) ==>
               (p in u.tree <==> p in tree) && (p in tree ==> u.tree[p] == tree[p]))
  {
    hide Clean, Accepted, Target, Place, ManifestOf, Packed, Unpack, Overlay, Free, Fits;
    CleanFits(files, tree);
    UnpackOfPack(sha, write, read, files, tree, []);
    assert Packed(sha, write, files) + [] == Packed(sha, write, files);
    OverlayHolds(tree, files);
  }

  // A dirty name of greatest weight.
  lemma {:induction false} HeaviestDirty(files: seq<File>) returns (k: nat)
    requires !AllClean(files)
    ensures k < |files| && !Clean(files[k].path)
    ensures forall j :: 0 <= j < |files| && !Clean(files[j].path) ==> Weight(files[j].path) <= Weight(files[k].path)
  {
    hide Clean, Weight;
    var before, last := files[..|files| - 1], |files| - 1;
    if AllClean(before) {
      k := last;
      assert forall j :: 0 <= j < last ==> before[j] == files[j];
    } else {
      k := HeaviestDirty(before);
      assert forall j :: 0 <= j < last ==> before[j] == files[j];
      if !Clean(files[last].path) && Weight(files[k].path) < Weight(files[last].path) {
        k := last;
      }
    }
  }

  lemma {:induction false} TakenHasNoBackslash(files: seq<File>, k: nat)
    requires k < |files| && Place(files[k].path) in Overlay(map[], files) && Fits(files, map[])
    ensures '\\' !in files[k].path
    ensures exists j :: 0 <= j < |files| && Target(files[j]) == Place(files[k].path)
  {
    hide Overlay, Place, Sanitize, Free;
    OverlayHolds(map[], files);
    var j :| 0 <= j < |files| && Target(files[j]) == Place(files[k].path);
    NoBackslashLeft(files[j].path);
    PlaceKeeps(files[k].path, '\\');
  }

  // If every file is back in its place, every name was clean: the heaviest dirty one would have to be the
  // target of a heavier one.
  lemma {:induction false} BackMeansClean(files: seq<File>)
    requires Found(files) && Fits(files, map[]) && InPlace(Overlay(map[], files), files)
    ensures AllClean(files)
  {
    hide Overlay, Clean, Place, Sanitize, Weight, Kept, Free, Clash;
    if !AllClean(files) {
      var k := HeaviestDirty(files);
      TakenHasNoBackslash(files, k);
      var j :| 0 <= j < |files| && Target(files[j]) == Place(files[k].path);
      TakenHasNoBackslash(files, j);
      DirtyIsLighter(files[k].path);
      DirtyIsLighter(files[j].path);
    }
  }

  // For whatever files a walk can find, unpacking into an empty directory what was packed succeeds and
  // puts every file back in its place if and only if the manifest is shorter than 2^32 bytes and
  // every name is clean; and then there is nothing else.
  lemma {:induction false} ArchiveRoundTrip(sha: Upload.Hash, write: Writer, read: Reader, files: seq<File>)
    requires ReadsBack(sha, write, read, files) && Found(files)
    ensures var u := Unpack(read, Packed(sha, write, files), map[]);
            var good := |write(ManifestOf(sha, files))| < U32_LIMIT && AllClean(files);
            (u.result.Ok? && InPlace(u.tree, files) <==> good) &&
            (good ==> u.result == Ok(ManifestOf(sha, files)) && u.unread == 0 &&
                      forall p :: p in u.tree ==> exists k :: 0 <= k < |files| && p == Place(files[k].path))
  {
    hide Clean, Place, ManifestOf, Packed, Unpack, Overlay, Fits, ReadsBack, Found, InPlace, AllClean;
    var u := Unpack(read, Packed(sha, write, files), map[]);
    if |write(ManifestOf(sha, files))| < U32_LIMIT && AllClean(files) {
      CleanComesBack(sha, write, read, files, map[]);
    } else if u.result.Ok? && InPlace(u.tree, files) {
      UnpackOfPack(sha, write, read, files, map[], []);
      assert Packed(sha, write, files) + [] == Packed(sha, write, files);
      BackMeansClean(files);
    }
  }

  lemma {:induction false} ExtractNeedsAll(sha: Upload.Hash, files: seq<File>, tree: Tree, part: Bytes)
    requires |part| < |Contents(files)|
    ensures Extract(EntriesOf(sha, files), part, tree).0.Some?
  {
    hide Sanitize, Free;
    var f := files[0];
    assert EntriesOf(sha, files)[1..] == EntriesOf(sha, files[1..]);
    if |f.data| <= |part| && Accepted(f) {
      ExtractNeedsAll(sha, files[1..], tree[Target(f) := part[..|f.data|]], part[|f.data|..]);
    }
  }

  // No strict prefix of a packed archive is accepted.
  lemma {:induction false} TruncatedIsRejected(sha: Upload.Hash, write: Writer, read: Reader, files: seq<File>,
                                               part: Bytes, tree: Tree)
    requires ReadsBack(sha, write, read, files) && part < Packed(sha, write, files)
    ensures Unpack(read, part, tree).result.Err?
  {
    var man := write(ManifestOf(sha, files));
    var n := |man| % U32_LIMIT;
    hide ManifestOf, Extract, Contents, EntriesOf, BigEndian, Unpack;
    EntriesAreFiles(sha, files);
    assert Packed(sha, write, files) == MAGIC + BigEndian(n) + man + Contents(files);
    if |part| < 8 + n {
      CutHeaderIsRejected(read, n, man + Contents(files), part, tree);
    } else {
      var rest := part[8 + n..];
      assert part == MAGIC + BigEndian(n) + man[..n] + rest;
      UnpackBody(read, man[..n], rest, tree);
      if |man| < U32_LIMIT {
        assert n == |man| && man[..n] == man;
        ExtractNeedsAll(sha, files, tree, rest);
      } else {
        assert man[..n] < man;
      }
    }
  }

  lemma {:induction false} CutHeaderIsRejected(read: Reader, n: u32, rest: Bytes, part: Bytes, tree: Tree)
    requires part <= MAGIC + BigEndian(n) + rest && |part| < 8 + n
    ensures Unpack(read, part, tree).result.Err?
  {
    BigEndianRoundTrip(n);
    hide BigEndian, FromBigEndian, Extract;
    if |part| >= 8 {
      assert part[4..8] == (MAGIC + BigEndian(n) + rest)[4..8] == BigEndian(n);
    }
  }

  function Datas(files: seq<File>): (ds: seq<Bytes>)
    ensures |ds| == |files| && forall k :: 0 <= k < |ds| ==> ds[k] == files[k].data
  {
    seq(|files|, k requires 0 <= k < |files| => files[k].data)
  }

  // The manifest describes each file, in order, by its name with slashes, its size and its own hash, and
  // all of them together by the hash of their contents one after the other.
  lemma {:induction false} ManifestDescribes(sha: Upload.Hash, files: seq<File>)
    ensures var m := ManifestOf(sha, files);
            && |m.files| == |files| && m.sha == sha(Concat(Datas(files))) && m.totalBytes == |Concat(Datas(files))|
            && forall k :: 0 <= k < |files| ==>
                 m.files[k].size == |files[k].data| && m.files[k].sha == sha(files[k].data) &&
                 |m.files[k].path| == |files[k].path| &&
                 forall i :: 0 <= i < |files[k].path| ==>
                   m.files[k].path[i] == if files[k].path[i] == '\\' then '/' else files[k].path[i]
  {
    ContentsIsConcat(files);
    hide Contents;
  }

  lemma {:induction false} ContentsIsConcat(files: seq<File>)
    ensures Contents(files) == Concat(Datas(files))
  {
    if files != [] {
      ContentsIsConcat(files[1..]);
      assert Datas(files)[1..] == Datas(files[1..]);
    }
  }

  // An archive is the letters GPK1, the length of the manifest, the manifest and the contents in order; and
  // nothing without those letters is unpacked.
  lemma {:induction false} ArchiveLayout(sha: Upload.Hash, write: Writer, read: Reader, files: seq<File>,
                                        other: Bytes, tree: Tree)
    ensures var man := write(ManifestOf(sha, files));
            Packed(sha, write, files) ==
            [0x47, 0x50, 0x4B, 0x31] + BigEndian(|man| % U32_LIMIT) + man + Concat(Datas(files))
    ensures |other| >= 4 && other[..4] != [0x47, 0x50, 0x4B, 0x31] ==>
              Unpack(read, other, tree).result == Err(BadMagic) && Unpack(read, other, tree).tree == tree
  {
    ContentsIsConcat(files);
    hide ManifestOf, Contents, BigEndian, Extract;
  }

  // The recorded total is the number of content bytes, file by file.
  lemma {:induction false} TotalIsSum(sha: Upload.Hash, files: seq<File>)
    ensures ManifestOf(sha, files).totalBytes == SumSizes(ManifestOf(sha, files).files)
  {
    EntriesSum(sha, files);
  }

  function SumSizes(es: seq<Entry>): nat {
    if es == [] then 0 else es[0].size + SumSizes(es[1..])
  }

  lemma {:induction false} EntriesSum(sha: Upload.Hash, files: seq<File>)
    ensures SumSizes(EntriesOf(sha, files)) == |Contents(files)|
  {
    if files != [] {
      EntriesSum(sha, files[1..]);
      assert EntriesOf(sha, files)[1..] == EntriesOf(sha, files[1..]);
    }
  }

  // Not every directory survives: two dots inside a name make unpacking fail although packing
  // succeeded, and a backslash in a name moves the file into a subdirectory.
  lemma {:induction false} DirtyNames()
    ensures !Accepted(File("a..b", []))
    ensures Sanitize(Slashes("a\\b")) == Ok(["a", "b"]) && Place("a\\b") == ["a\\b"]
  {
    TwoDots();
    BackslashBecomesSlash();
    hide Slashes, Trim, TrimStart, HasDotDot;
    SplitThree('a', '/', 'b');
    SplitThree('a', '\\', 'b');
    assert ['a', '/', 'b'] == "a/b" && ['a', '\\', 'b'] == "a\\b";
    hide Split, Filter, Parts, LastPiece;
  }

  lemma {:induction false} BackslashBecomesSlash()
    ensures Slashes("a\\b") == "a/b" && TrimStart(Trim("a/b")) == "a/b" && !HasDotDot("a/b")
  {
    assert Trim("a/b") == "a/b";
  }

  lemma {:induction false} TwoDots()
    ensures !Accepted(File("a..b", []))
  {
    assert Slashes("a..b") == "a..b";
    assert Trim("a..b") == "a..b" && TrimStart("a..b") == "a..b";
    assert "a..b"[1] == '.' && "a..b"[1 + 1] == '.';
    hide Split, Filter, Slashes, Trim, TrimStart;
  }
}
