/** Where a transferred file lives on the provider: the rules for uploads, for downloads, and when the
    two agree. Paths are Unix paths; symbolic links are not followed. */
module Paths {
  import opened Base

  // A file below the incoming directory, or a file of a job directory. A path that ends in a slash or in
  // a dot piece stands for something inside a directory: no file can be written there, and its
  // partial file would be the file ".partial" or "..partial" of that directory.
  datatype Dest = Incoming(segments: seq<string>) | Inside(segments: seq<string>, dot: bool) |
                  JobFile(id: string, name: string)

  datatype Fault = UnsafeTransferId | UnsafePath | EscapesIncoming | InvalidJobId | NotADirectory | IsADirectory |
                   InvalidName

  // The pieces of s between occurrences of `sep`.
  function Split(s: string, sep: char): (parts: seq<string>)
    ensures |parts| > 0
  {
    if s == "" then [""]
    else
      var rest := Split(s[1..], sep);
      if s[0] == sep then [""] + rest else [[s[0]] + rest[0]] + rest[1..]
  }

  function NonEmpty(): string -> bool {
    (p: string) => p != ""
  }

  function NotDot(): string -> bool {
    (p: string) => p != "."
  }

  function Parts(s: string): seq<string> {
    Filter(NonEmpty(), Split(s, '/'))
  }

  predicate IsAbsolute(s: string) {
    s != "" && s[0] == '/'
  }

  // Path::components: empty pieces vanish, and so does "." except at the very front.
  function Components(s: string): seq<string> {
    var parts := Parts(s);
    if !IsAbsolute(s) && parts != [] && parts[0] == "." then ["."] + Filter(NotDot(), parts[1..])
    else Filter(NotDot(), parts)
  }

  function LastPiece(s: string): string {
    var pieces := Split(s, '/');
    pieces[|pieces| - 1]
  }

  function UploadDest(path: string, transferId: string): Result<Dest, Fault> {
    if path == "workload.gpk" then
      if transferId == "" || IsAbsolute(transferId) || |Components(transferId)| != 1
         || Components(transferId)[0] == "." || Components(transferId)[0] == ".."
      then Err(UnsafeTransferId)
      else Ok(JobFile(Components(transferId)[0], "workload.gpk"))
    else if IsAbsolute(path) || ".." in Components(path) then Err(UnsafePath)
    else
      var segments := Filter(NotDot(), Parts(path));
      if segments == [] then Err(EscapesIncoming)
      else if LastPiece(path) == "" || LastPiece(path) == "." then Ok(Inside(segments, LastPiece(path) == "."))
      else Ok(Incoming(segments))
  }

  function TrimStart(s: string): string {
    if s != "" && (s[0] == '/' || s[0] == '\\') then TrimStart(s[1..]) else s
  }

  function Slashes(s: string): (r: string)
    ensures |r| == |s|
    ensures forall i :: 0 <= i < |s| ==> r[i] == if s[i] == '\\' then '/' else s[i]
  {
    seq(|s|, i requires 0 <= i < |s| => if s[i] == '\\' then '/' else s[i])
  }

  predicate HasDotDot(s: string) {
    exists i :: 0 <= i < |s| - 1 && s[i] == '.' && s[i + 1] == '.'
  }

  predicate IsSafeJobId(id: string) {
    id != "" && |id| <= 64 &&
    forall i :: 0 <= i < |id| ==>
      '0' <= id[i] <= '9' || 'a' <= id[i] <= 'z' || 'A' <= id[i] <= 'Z' || id[i] == '-' || id[i] == '_'
  }

  predicate IsJobOutputs(parts: seq<string>) {
    |parts| == 3 && parts[0] == "jobs" && parts[2] == "outputs.gpk"
  }

  function ResolveDownload(path: string): Result<Dest, Fault> {
    var clean := Slashes(TrimStart(path));
    if clean == "" || HasDotDot(clean) then Err(UnsafePath)
    else
      var parts := Parts(clean);
      if IsJobOutputs(parts) then
        if IsSafeJobId(parts[1]) then Ok(JobFile(parts[1], "outputs.gpk")) else Err(InvalidJobId)
      else if exists i :: 0 <= i < |parts| && (parts[i] == ".." || parts[i] == "." || ':' in parts[i]) then
        Err(UnsafePath)
      else Ok(Incoming(parts))
  }

  // ---- When the two agree ----

  lemma {:induction false} FilterMembers<T>(p: T -> bool, s: seq<T>, x: T)
    ensures x in Filter(p, s) <==> x in s && p(x)
  {
    if s != [] {
      FilterMembers(p, s[1..], x);
      assert s == [s[0]] + s[1..];
    }
  }

  lemma {:induction false} FilterAll<T>(p: T -> bool, s: seq<T>)
    requires forall x :: x in s ==> p(x)
    ensures Filter(p, s) == s
  {
    if s != [] {
      assert forall x :: x in s[1..] ==> x in s;
      FilterAll(p, s[1..]);
    }
  }

  // A character other than the separator shows up in the pieces exactly if it is in the string.
  lemma {:induction false} SplitKeeps(s: string, sep: char, c: char)
    requires c != sep
    ensures c in s <==> exists p :: p in Split(s, sep) && c in p
  {
    if s == "" {
      assert Split(s, sep) == [""];
    } else {
      SplitKeeps(s[1..], sep, c);
      var rest, parts := Split(s[1..], sep), Split(s, sep);
      assert s == [s[0]] + s[1..];
      assert rest == [rest[0]] + rest[1..];
      if s[0] == sep {
        assert forall p :: p in parts <==> p == "" || p in rest;
      } else {
        assert forall p :: p in parts <==> p == [s[0]] + rest[0] || p in rest[1..];
        assert parts[0] in parts;
        if c in s {
          if c == s[0] {
            assert c in parts[0];
          } else {
            var p :| p in rest && c in p;
            assert c in parts[0] || p in rest[1..];
          }
        }
        if q :| q in parts && c in q && c != s[0] {
          assert q == parts[0] ==> rest[0] in rest && c in rest[0];
          assert q in rest[1..] ==> q in rest;
        }
      }
    }
  }

  lemma {:induction false} PartsKeep(s: string, c: char)
    requires c != '/'
    ensures c in s <==> exists p :: p in Parts(s) && c in p
  {
    SplitKeeps(s, '/', c);
    if c in s {
      var p :| p in Split(s, '/') && c in p;
      FilterMembers(NonEmpty(), Split(s, '/'), p);
    }
    if p :| p in Parts(s) && c in p {
      FilterMembers(NonEmpty(), Split(s, '/'), p);
    }
  }

  // The paths whose upload and download name the same file: relative ones without backslash, "..", dot
  // pieces, colons or a slash at the end, other than the two names of job files.
  predicate Agreeable(path: string) {
    path != "" && path[0] != '/' && path[|path| - 1] != '/' && '\\' !in path && ':' !in path && !HasDotDot(path) &&
    "." !in Parts(path) && !IsJobOutputs(Parts(path)) && path != "workload.gpk"
  }

  // The last piece is empty exactly at the end of a path that is empty or ends in a slash.
  lemma {:induction false} LastPieceEmpty(s: string)
    ensures LastPiece(s) == "" <==> s == "" || s[|s| - 1] == '/'
  {
    if s != "" {
      LastPieceEmpty(s[1..]);
      var rest := Split(s[1..], '/');
      if s[0] != '/' && |rest| == 1 {
        assert LastPiece(s) == [s[0]] + rest[0];
        assert rest[0] == "" ==> s[1..] == "";
      }
    }
  }

  lemma {:induction false} CleanIsSame(path: string)
    requires !IsAbsolute(path) && '\\' !in path
    ensures Slashes(TrimStart(path)) == path
  {
    assert forall i :: 0 <= i < |path| ==> path[i] in path;
    assert TrimStart(path) == path;
  }

  lemma {:induction false} LastPieceIsPart(s: string)
    requires LastPiece(s) != ""
    ensures LastPiece(s) in Parts(s)
  {
    FilterMembers(NonEmpty(), Split(s, '/'), LastPiece(s));
  }

  lemma {:induction false} DotDotPart(s: string)
    requires ".." in Split(s, '/')
    ensures HasDotDot(s)
  {
    var rest := Split(s[1..], '/');
    if ".." in rest[1..] || (s[0] == '/' && ".." in rest) {
      assert rest == [rest[0]] + rest[1..];
      DotDotPart(s[1..]);
      var i :| 0 <= i < |s[1..]| - 1 && s[1..][i] == '.' && s[1..][i + 1] == '.';
      assert s[i + 1] == '.' && s[i + 1 + 1] == '.';
    } else {
      assert Split(s, '/')[0] == [s[0]] + rest[0] == "..";
      assert ([s[0]] + rest[0])[0] == '.' && ([s[0]] + rest[0])[1] == rest[0][0];
      FirstPiece(s[1..]);
      assert s[0] == '.' && s[0 + 1] == '.';
    }
  }

  lemma {:induction false} FirstPiece(s: string)
    requires Split(s, '/')[0] != ""
    ensures s != "" && s[0] == Split(s, '/')[0][0]
  {
  }

  lemma {:induction false} AgreeableAgree(path: string, transferId: string)
    requires Agreeable(path)
    ensures UploadDest(path, transferId) == ResolveDownload(path) == Ok(Incoming(Parts(path)))
  {
    CleanIsSame(path);
    LastPieceEmpty(path);
    LastPieceIsPart(path);
    var parts := Parts(path);
    PartsKeep(path, ':');
    if ".." in parts {
      FilterMembers(NonEmpty(), Split(path, '/'), "..");
      DotDotPart(path);
    }
    FilterAll(NotDot(), parts);
  }

  // Upload and download resolve a path to the same file exactly if the path is agreeable.
  lemma {:induction false} ResolversAgreeIff(path: string, transferId: string)
    ensures (UploadDest(path, transferId).Ok? && UploadDest(path, transferId) == ResolveDownload(path)) <==>
            Agreeable(path)
  {
    if Agreeable(path) {
      AgreeableAgree(path, transferId);
    } else if UploadDest(path, transferId).Ok? && UploadDest(path, transferId) == ResolveDownload(path) {
      SameFileMeansAgreeable(path, transferId);
    }
  }

  lemma {:induction false} SameFileMeansAgreeable(path: string, transferId: string)
    requires UploadDest(path, transferId).Ok? && UploadDest(path, transferId) == ResolveDownload(path)
    ensures Agreeable(path)
  {
    SameFileHasNoBackslash(path, transferId);
    CleanIsSame(path);
    LastPieceEmpty(path);
    PartsKeep(path, ':');
    assert forall p :: p in Parts(path) ==> exists i :: 0 <= i < |Parts(path)| && Parts(path)[i] == p;
    hide Split, Filter, Slashes, TrimStart;
  }

  lemma {:induction false} SameFileHasNoBackslash(path: string, transferId: string)
    requires UploadDest(path, transferId).Ok? && UploadDest(path, transferId) == ResolveDownload(path)
    ensures '\\' !in path && !IsAbsolute(path) && UploadDest(path, transferId).value.Incoming?
  {
    var clean := Slashes(TrimStart(path));
    hide Split, Filter, TrimStart;
    if '\\' in path {
      PartsKeep(path, '\\');
      var p :| p in Parts(path) && '\\' in p;
      FilterMembers(NotDot(), Parts(path), p);
      assert p in Parts(clean);
      PartsKeep(clean, '\\');
      assert false;
    }
  }

  // Two paths that both sides accept but take for different files.
  lemma {:induction false} ResolversDiffer(transferId: string)
    ensures UploadDest("a\\b", transferId) == Ok(Incoming(["a\\b"]))
    ensures ResolveDownload("a\\b") == Ok(Incoming(["a", "b"]))
    ensures UploadDest("d/", transferId) == Ok(Inside(["d"], false)) && ResolveDownload("d/") == Ok(Incoming(["d"]))
  {
    BackslashDiffers(transferId);
    SlashDiffers(transferId);
    hide UploadDest, ResolveDownload;
  }

  lemma {:induction false} BackslashDiffers(transferId: string)
    ensures UploadDest("a\\b", transferId) == Ok(Incoming(["a\\b"]))
    ensures ResolveDownload("a\\b") == Ok(Incoming(["a", "b"]))
  {
    SplitThree('a', '\\', 'b');
    SplitThree('a', '/', 'b');
    hide Split, Filter, Parts, LastPiece;
    assert Slashes("a\\b") == "a/b" && TrimStart("a\\b") == "a\\b";
    hide Slashes, TrimStart;
    assert ['a', '\\', 'b'] == "a\\b" && ['a', '/', 'b'] == "a/b";
  }

  lemma {:induction false} SlashDiffers(transferId: string)
    ensures UploadDest("d/", transferId) == Ok(Inside(["d"], false)) && ResolveDownload("d/") == Ok(Incoming(["d"]))
  {
    SlashAtEnd('d');
    hide Split, Filter, Parts, LastPiece;
    assert Slashes("d/") == "d/" && TrimStart("d/") == "d/";
    hide Slashes, TrimStart;
    assert ['d', '/'] == "d/";
  }

  lemma {:induction false} SlashAtEnd(x: char)
    requires x != '/' && x != '.'
    ensures Parts([x, '/']) == Filter(NotDot(), Parts([x, '/'])) == [[x]] && LastPiece([x, '/']) == ""
  {
    SplitAtSlash([x], "");
    OnePiece("");
    hide Split;
    assert [x] + "/" + "" == [x, '/'];
    FilterFirst(NonEmpty(), [x], [""]);
    FilterFirst(NonEmpty(), "", []);
    FilterFirst(NotDot(), [x], []);
    assert [""] + [] == [""] && [[x]] + [] == [[x]];
  }

  lemma {:induction false} SplitCons(x: char, s: string, sep: char)
    ensures Split([x] + s, sep) ==
            if x == sep then [""] + Split(s, sep) else [[x] + Split(s, sep)[0]] + Split(s, sep)[1..]
  {
    assert ([x] + s)[1..] == s;
  }

  lemma {:induction false} OnePiece(s: string)
    requires '/' !in s
    ensures Split(s, '/') == [s]
  {
    if s != "" {
      assert s == [s[0]] + s[1..];
      OnePiece(s[1..]);
      SplitCons(s[0], s[1..], '/');
    }
  }

  lemma {:induction false} SplitAtSlash(a: string, b: string)
    requires '/' !in a
    ensures Split(a + "/" + b, '/') == [a] + Split(b, '/')
  {
    if a == "" {
      SplitCons('/', b, '/');
      assert a + "/" + b == ['/'] + b;
    } else {
      var rest := a[1..];
      assert a == [a[0]] + rest;
      SplitAtSlash(rest, b);
      SplitCons(a[0], rest + "/" + b, '/');
      assert a + "/" + b == [a[0]] + (rest + "/" + b);
      assert ([rest] + Split(b, '/'))[1..] == Split(b, '/');
    }
  }

  lemma {:induction false} FilterFirst<T>(p: T -> bool, x: T, s: seq<T>)
    ensures Filter(p, [x] + s) == (if p(x) then [x] else []) + Filter(p, s)
  {
    assert ([x] + s)[1..] == s;
  }

  lemma {:induction false} SplitThree(x: char, y: char, z: char)
    requires x != '/' && z != '/' && x != '.' && z != '.'
    ensures var parts := Parts([x, y, z]);
            Filter(NotDot(), parts) == parts == (if y == '/' then [[x], [z]] else [[x, y, z]]) &&
            LastPiece([x, y, z]) == parts[|parts| - 1]
  {
    if y == '/' {
      SplitAtSlash([x], [z]);
      OnePiece([z]);
      hide Split;
      assert [x] + "/" + [z] == [x, y, z];
      TwoKept(NonEmpty(), [x], [z]);
      TwoKept(NotDot(), [x], [z]);
    } else {
      OnePiece([x, y, z]);
      hide Split;
      assert |[x, y, z]| == 3;
      FilterFirst(NonEmpty(), [x, y, z], []);
      FilterFirst(NotDot(), [x, y, z], []);
      assert [[x, y, z]] + [] == [[x, y, z]];
    }
  }

  lemma {:induction false} TwoKept<T>(p: T -> bool, a: T, b: T)
    requires p(a) && p(b)
    ensures Filter(p, [a] + [b]) == [a, b] == [a] + [b]
  {
    FilterFirst(p, a, [b]);
    FilterFirst(p, b, []);
    assert [b] + [] == [b];
  }
}
