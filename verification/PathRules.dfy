/** Where upload and download paths lead: each job's files into the directory of that job, everything else
    below the incoming directory and never out of it. */
module PathRules {
  import opened Base
  import opened Paths

  // ---- Pieces ----

  lemma {:induction false} PieceHasNoSlash(s: string, p: string)
    requires p in Split(s, '/')
    ensures '/' !in p
  {
    if s != "" {
      var rest := Split(s[1..], '/');
      if p in rest {
        PieceHasNoSlash(s[1..], p);
      } else if s[0] != '/' {
        assert p == [s[0]] + rest[0];
        PieceHasNoSlash(s[1..], rest[0]);
      }
    }
  }

  predicate IsNormal(piece: string) {
    piece != "" && piece != "."
  }

  function Normal(): string -> bool {
    (p: string) => IsNormal(p)
  }

  lemma {:induction false} FilterTwice(pieces: seq<string>)
    ensures Filter(NotDot(), Filter(NonEmpty(), pieces)) == Filter(Normal(), pieces)
  {
    if pieces != [] {
      FilterTwice(pieces[1..]);
      var rest := Filter(NonEmpty(), pieces[1..]);
      assert ([pieces[0]] + rest)[1..] == rest;
    }
  }

  // ---- Uploads ----

  // The transfer id names one directory: its first piece is a proper name, and whatever else there is are
  // empty or dot pieces.
  predicate NamesOneDirectory(id: string) {
    var pieces := Split(id, '/');
    IsNormal(pieces[0]) && pieces[0] != ".." && forall p :: p in pieces[1..] ==> !IsNormal(p)
  }

  // The package of a job goes to the directory its transfer id names, and is refused exactly if that is
  // not a single proper name.
  lemma {:induction false} PackageDest(id: string)
    ensures UploadDest("workload.gpk", id) ==
            if NamesOneDirectory(id) then Ok(JobFile(Split(id, '/')[0], "workload.gpk")) else Err(UnsafeTransferId)
  {
    var pieces := Split(id, '/');
    var first, others := pieces[0], pieces[1..];
    assert pieces == [first] + others;
    FilterFirst(NonEmpty(), first, others);
    FilterTwice(others);
    forall p
      ensures p in Filter(Normal(), others) <==> p in others && IsNormal(p)
    {
      FilterMembers(Normal(), others, p);
    }
    EmptyFirst(id);
    if first != "" && first != "." {
      FilterFirst(NotDot(), first, Filter(NonEmpty(), others));
      assert Parts(id) == [first] + Filter(NonEmpty(), others);
      assert Components(id) == [first] + Filter(Normal(), others);
      if Filter(Normal(), others) != [] {
        assert Filter(Normal(), others)[0] in Filter(Normal(), others);
      }
    } else if first == "." {
      assert Parts(id) == ["."] + Filter(NonEmpty(), others);
      assert Components(id)[0] == ".";
    }
  }

  lemma {:induction false} EmptyFirst(s: string)
    ensures Split(s, '/')[0] == "" <==> s == "" || s[0] == '/'
  {
  }

  // Packages of jobs with different plain ids go to different files, each named after its job.
  lemma {:induction false} PackagesAreApart(id: string, other: string)
    requires id !in {"", ".", ".."} && other !in {"", ".", ".."} && '/' !in id && '/' !in other
    ensures UploadDest("workload.gpk", id) == Ok(JobFile(id, "workload.gpk"))
    ensures id != other ==> UploadDest("workload.gpk", id) != UploadDest("workload.gpk", other)
  {
    OnePiece(id);
    OnePiece(other);
    PackageDest(id);
    PackageDest(other);
    hide UploadDest;
  }

  // Every other path is accepted exactly if it is relative, has no ".." piece and some proper name. It then
  // leads to those of its pieces that are proper names, in order, below the incoming directory.
  lemma {:induction false} UploadStaysBelow(path: string, id: string)
    requires path != "workload.gpk"
    ensures var d, pieces := UploadDest(path, id), Split(path, '/');
            && (d.Ok? <==> !(path != "" && path[0] == '/') && ".." !in pieces && exists p :: p in pieces && IsNormal(p))
            && (d == Err(UnsafePath) <==> (path != "" && path[0] == '/') || ".." in pieces)
            && (d.Ok? ==> !d.value.JobFile? && d.value.segments == Filter(Normal(), pieces) != [] &&
                          (d.value.Inside? <==> !IsNormal(pieces[|pieces| - 1])) &&
                          (d.value.Inside? ==> (d.value.dot <==> pieces[|pieces| - 1] == ".")) &&
                          forall p :: p in d.value.segments ==> p !in {"", ".", ".."} && '/' !in p)
  {
    var pieces := Split(path, '/');
    FilterTwice(pieces);
    DotDotIsKept(path);
    NormalPieces(path);
    hide Split, Filter, Components;
  }

  lemma {:induction false} DotDotIsKept(path: string)
    ensures ".." in Components(path) <==> ".." in Split(path, '/')
  {
    var pieces, parts := Split(path, '/'), Parts(path);
    FilterMembers(NonEmpty(), pieces, "..");
    FilterMembers(NotDot(), parts, "..");
    if parts != [] {
      FilterMembers(NotDot(), parts[1..], "..");
      assert parts == [parts[0]] + parts[1..];
    }
    hide Split, Filter;
  }

  lemma {:induction false} NormalPieces(path: string)
    ensures var pieces := Split(path, '/');
            && (Filter(Normal(), pieces) != [] <==> exists p :: p in pieces && IsNormal(p))
            && (forall p :: p in Filter(Normal(), pieces) ==> p in pieces && p !in {"", "."} && '/' !in p)
  {
    var pieces := Split(path, '/');
    hide Split, Filter;
    forall p
      ensures p in Filter(Normal(), pieces) <==> p in pieces && IsNormal(p)
    {
      FilterMembers(Normal(), pieces, p);
    }
    if Filter(Normal(), pieces) != [] {
      assert Filter(Normal(), pieces)[0] in Filter(Normal(), pieces);
    }
    forall p | p in pieces
      ensures '/' !in p
    {
      PieceHasNoSlash(path, p);
    }
  }

  // ---- Downloads ----

  // A download never leads out of the incoming directory either, except to the outputs of a job with a
  // safe id.
  lemma {:induction false} DownloadStaysBelow(path: string)
    ensures var d := ResolveDownload(path);
            && (d.Ok? && !d.value.JobFile? ==>
                 d.value.Incoming? && d.value.segments != [] &&
                 forall p :: p in d.value.segments ==>
                   p !in {"", ".", ".."} && '/' !in p && '\\' !in p && ':' !in p)
            && (d.Ok? && d.value.JobFile? ==>
                 d.value.name == "outputs.gpk" && IsSafeJobId(d.value.id) &&
                 Parts(Slashes(TrimStart(path))) == ["jobs", d.value.id, "outputs.gpk"])
  {
    var clean := Slashes(TrimStart(path));
    var parts := Parts(clean);
    PartsKeep(clean, '\\');
    Trimmed(path);
    if clean != "" {
      EmptyFirst(clean);
      FilterMembers(NonEmpty(), Split(clean, '/'), Split(clean, '/')[0]);
    }
    forall p | p in parts
      ensures p != "" && '/' !in p
    {
      FilterMembers(NonEmpty(), Split(clean, '/'), p);
      PieceHasNoSlash(clean, p);
    }
    assert forall p :: p in parts ==> exists i :: 0 <= i < |parts| && parts[i] == p;
    assert IsJobOutputs(parts) ==> parts == ["jobs", parts[1], "outputs.gpk"];
    hide Split, Filter, Slashes, TrimStart, Parts;
  }

  lemma {:induction false} Trimmed(path: string)
    ensures var t := TrimStart(path); t != "" ==> t[0] != '/' && t[0] != '\\'
  {
    if path != "" && (path[0] == '/' || path[0] == '\\') {
      Trimmed(path[1..]);
    }
  }

  lemma {:induction false} ThreePieces(a: string, b: string, c: string)
    requires a != "" && b != "" && c != "" && '/' !in a && '/' !in b && '/' !in c
    ensures Parts(a + "/" + (b + "/" + c)) == [a, b, c]
  {
    SplitAtSlash(a, b + "/" + c);
    SplitAtSlash(b, c);
    OnePiece(c);
    hide Split;
    FilterFirst(NonEmpty(), a, [b] + [c]);
    FilterFirst(NonEmpty(), b, [c]);
    FilterFirst(NonEmpty(), c, []);
    assert [c] + [] == [c];
  }

  // Two dots in a row in a path of three pieces lie in the middle one, if the others have none.
  lemma {:induction false} DotsInTheMiddle(a: string, b: string, c: string)
    requires '.' !in a && !HasDotDot(b) && !HasDotDot(c)
    ensures !HasDotDot(a + "/" + (b + "/" + c))
  {
    var s := a + "/" + (b + "/" + c);
    forall i | 0 <= i < |s| - 1
      ensures s[i] != '.' || s[i + 1] != '.'
    {
      var j := i - |a| - 1;
      var k := j - |b| - 1;
      if i < |a| {
        assert s[i] == a[i] && a[i] in a;
      } else if 0 <= j < |b| - 1 {
        assert s[i] == b[j] && s[i + 1] == b[j + 1];
      } else if 0 <= k {
        assert s[i] == c[k] && s[i + 1] == c[k + 1];
      }
    }
  }

  // The outputs of a job are found under its id, if that is a safe one.
  lemma {:induction false} JobOutputsPath(id: string)
    requires id != "" && '/' !in id && '\\' !in id && !HasDotDot(id)
    ensures ResolveDownload("jobs" + "/" + (id + "/" + "outputs.gpk")) ==
            if IsSafeJobId(id) then Ok(JobFile(id, "outputs.gpk")) else Err(InvalidJobId)
  {
    var path := "jobs" + "/" + (id + "/" + "outputs.gpk");
    ThreePieces("jobs", id, "outputs.gpk");
    DotsInTheMiddle("jobs", id, "outputs.gpk");
    assert '\\' !in path;
    CleanIsSame(path);
    hide Split, Filter, HasDotDot, Slashes, TrimStart, Parts;
  }

  // Slashes of either kind at the front make no difference, and backslashes count as slashes.
  lemma {:induction false} SlashesAreAlike(c: char, path: string)
    requires c == '/' || c == '\\'
    ensures ResolveDownload([c] + path) == ResolveDownload(path) == ResolveDownload(Slashes(path))
  {
    assert ([c] + path)[1..] == path;
    TrimOfSlashes(path);
    hide Split, Filter, HasDotDot;
  }

  lemma {:induction false} TrimOfSlashes(path: string)
    ensures Slashes(TrimStart(Slashes(path))) == Slashes(TrimStart(path))
  {
    if path != "" {
      assert Slashes(path)[1..] == Slashes(path[1..]);
      TrimOfSlashes(path[1..]);
    }
  }
}
