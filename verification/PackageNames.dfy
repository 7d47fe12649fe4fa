/** Where the entries of an archive are unpacked, and which names come back to the place they had. */
module PackageNames {
  import opened Base
  import opened PathRules
  import opened Paths

  datatype Fault = EmptyPath | IllegalPath | NulInName | IsDirectory

  // char::is_whitespace
  predicate IsSpace(c: char) {
    var n := c as int;
    9 <= n <= 13 || n == 0x20 || n == 0x85 || n == 0xA0 || n == 0x1680 || 0x2000 <= n <= 0x200A ||
    n == 0x2028 || n == 0x2029 || n == 0x202F || n == 0x205F || n == 0x3000
  }

  // White space as Unicode 15.0 defines it.
  lemma {:induction false} WhiteSpace(c: char)
    ensures IsSpace(c) <==>
            c as int in {0x9, 0xA, 0xB, 0xC, 0xD, 0x20, 0x85, 0xA0, 0x1680, 0x2000, 0x2001, 0x2002, 0x2003, 0x2004,
                         0x2005, 0x2006, 0x2007, 0x2008, 0x2009, 0x200A, 0x2028, 0x2029, 0x202F, 0x205F, 0x3000}
  {
  }

  function Trim(s: string): string {
    if s != "" && IsSpace(s[0]) then Trim(s[1..])
    else if s != "" && IsSpace(s[|s| - 1]) then Trim(s[..|s| - 1])
    else s
  }

  // The path of an entry below the target directory, or why it cannot be written.
  function Sanitize(path: string): Result<seq<string>, Fault> {
    var rel := TrimStart(Trim(path));
    if rel == "" then Err(EmptyPath)
    else if HasDotDot(rel) || (|rel| > 1 && rel[1] == ':') then Err(IllegalPath)
    else if '\0' in rel then Err(NulInName)
    else if LastPiece(rel) == "" || LastPiece(rel) == "." then Err(IsDirectory)
    else Ok(Place(rel))
  }

  // The segments of a relative path, without dot pieces.
  function Place(path: string): seq<string> {
    Filter(NotDot(), Parts(path))
  }

  // Names that come back where they were: relative, no backslash, no NUL character, no "..", no colon in
  // second place, no white space at either end, no slash or dot piece at the end.
  predicate Clean(path: string) {
    path != "" && path[0] != '/' && '\\' !in path && '\0' !in path &&
    !HasDotDot(path) && (|path| > 1 ==> path[1] != ':') &&
    !IsSpace(path[0]) && !IsSpace(path[|path| - 1]) && LastPiece(path) != "" && LastPiece(path) != "."
  }

  lemma {:induction false} CleanStaysPut(path: string)
    requires Clean(path)
    ensures Sanitize(Slashes(path)) == Ok(Place(path))
  {
    CleanIsSame(path);
    assert forall i :: 0 <= i < |path| ==> path[i] in path;
    assert Slashes(path) == path;
    assert TrimStart(path) == path;
  }

  // ---- The converse: how many characters of a path lie in pieces other than dots ----

  function Kept(pieces: seq<string>): nat {
    if pieces == [] then 0 else (if pieces[0] == "." then 0 else |pieces[0]|) + Kept(pieces[1..])
  }

  function Weight(s: string): nat {
    Kept(Split(s, '/'))
  }

  lemma {:induction false} KeptFiltered(pieces: seq<string>)
    ensures Kept(Filter(NotDot(), Filter(NonEmpty(), pieces))) == Kept(pieces)
  {
    if pieces != [] {
      KeptFiltered(pieces[1..]);
      var p, rest := pieces[0], Filter(NonEmpty(), pieces[1..]);
      if p != "" {
        assert Filter(NonEmpty(), pieces) == [p] + rest && ([p] + rest)[1..] == rest;
        assert p != "." ==> ([p] + Filter(NotDot(), rest))[1..] == Filter(NotDot(), rest);
      }
    }
  }

  lemma {:induction false} KeptLast(pieces: seq<string>, p: string)
    ensures Kept(pieces + [p]) == Kept(pieces) + if p == "." then 0 else |p|
  {
    if pieces == [] {
      assert ([] + [p])[1..] == [];
    } else {
      assert (pieces + [p])[1..] == pieces[1..] + [p];
      KeptLast(pieces[1..], p);
    }
  }

  // The pieces with a character added to the last one.
  function PushLast(pieces: seq<string>, c: char): seq<string>
    requires pieces != []
  {
    pieces[..|pieces| - 1] + [pieces[|pieces| - 1] + [c]]
  }

  lemma {:induction false} PushCons(p: string, pieces: seq<string>, c: char)
    ensures PushLast([p], c) == [p + [c]]
    ensures pieces != [] ==> PushLast([p] + pieces, c) == [p] + PushLast(pieces, c)
  {
    if pieces != [] {
      assert ([p] + pieces)[..|pieces|] == [p] + pieces[..|pieces| - 1];
    }
  }

  // Adding to the last piece, after one more piece or one more character in front.
  lemma {:induction false} PushStep(x: char, q: seq<string>, c: char)
    requires q != []
    ensures PushLast([""] + q, c) == [""] + PushLast(q, c)
    ensures PushLast([[x] + q[0]] + q[1..], c) == [[x] + PushLast(q, c)[0]] + PushLast(q, c)[1..]
  {
    PushCons("", q, c);
    PushCons(q[0], q[1..], c);
    PushCons([x] + q[0], q[1..], c);
    hide PushLast;
    assert q == [q[0]] + q[1..];
    if q[1..] == [] {
      assert q == [q[0]] && [[x] + q[0]] + q[1..] == [[x] + q[0]];
      assert [x] + (q[0] + [c]) == [x] + q[0] + [c];
      assert [q[0] + [c]][1..] == [];
    } else {
      var r := PushLast(q[1..], c);
      assert ([q[0]] + r)[0] == q[0] && ([q[0]] + r)[1..] == r;
    }
  }

  lemma {:induction false} SplitLast(s: string, c: char)
    requires c != '/'
    ensures Split(s + [c], '/') == PushLast(Split(s, '/'), c)
  {
    if s == "" {
      OnePiece("");
      OnePiece([c]);
      PushCons("", [], c);
      assert s + [c] == [c] && "" + [c] == [c];
    } else {
      var x, t := s[0], s[1..];
      SplitLast(t, c);
      SplitCons(x, t + [c], '/');
      SplitCons(x, t, '/');
      PushStep(x, Split(t, '/'), c);
      hide Split, PushLast;
      assert s + [c] == [x] + (t + [c]) && s == [x] + t;
    }
  }

  lemma {:induction false} WeightOfEnds(s: string, c: char)
    requires IsSpace(c)
    ensures Weight(s) < Weight([c] + s) && Weight(s) < Weight(s + [c])
  {
    var p := Split(s, '/');
    var n := |p| - 1;
    SplitCons(c, s, '/');
    hide Split;
    assert [c] + p[0] != "." by {
      assert ([c] + p[0])[0] == c;
    }
    assert ([[c] + p[0]] + p[1..])[1..] == p[1..];
    SplitLast(s, c);
    assert p[n] + [c] != "." by {
      assert (p[n] + [c])[|p[n]|] == c;
    }
    assert p == p[..n] + [p[n]];
    KeptLast(p[..n], p[n]);
    KeptLast(p[..n], p[n] + [c]);
  }

  lemma {:induction false} TrimLightens(s: string)
    ensures if s != "" && (IsSpace(s[0]) || IsSpace(s[|s| - 1])) then Weight(Trim(s)) < Weight(s) else Trim(s) == s
    ensures forall c :: c in Trim(s) ==> c in s
    decreases |s|
  {
    hide Weight;
    if s != "" {
      var t, u := s[1..], s[..|s| - 1];
      assert s == [s[0]] + t == u + [s[|s| - 1]];
      if IsSpace(s[0]) {
        TrimLightens(t);
        WeightOfEnds(t, s[0]);
      } else if IsSpace(s[|s| - 1]) {
        TrimLightens(u);
        WeightOfEnds(u, s[|s| - 1]);
      }
    }
  }

  lemma {:induction false} TrimStartKeepsWeight(s: string)
    requires '\\' !in s
    ensures Weight(TrimStart(s)) == Weight(s)
  {
    if s != "" && s[0] == '/' {
      assert s == ['/'] + s[1..];
      SplitCons('/', s[1..], '/');
      assert ([""] + Split(s[1..], '/'))[1..] == Split(s[1..], '/');
      TrimStartKeepsWeight(s[1..]);
    }
  }

  lemma {:induction false} TrimStartKeepsOut(s: string)
    ensures forall c :: c in TrimStart(s) ==> c in s
  {
    if s != "" && (s[0] == '/' || s[0] == '\\') {
      TrimStartKeepsOut(s[1..]);
    }
  }

  lemma {:induction false} PlaceKeeps(s: string, c: char)
    requires c != '/' && c != '.'
    ensures c in s <==> exists p :: p in Place(s) && c in p
  {
    PartsKeep(s, c);
    forall p
      ensures p in Place(s) <==> p in Parts(s) && p != "."
    {
      FilterMembers(NotDot(), Parts(s), p);
    }
  }

  // No segment of an unpacked path contains a backslash.
  lemma {:induction false} NoBackslashLeft(path: string)
    requires Sanitize(Slashes(path)).Ok?
    ensures forall p :: p in Sanitize(Slashes(path)).value ==> '\\' !in p
  {
    var s := Slashes(path);
    TrimLightens(s);
    TrimStartKeepsOut(Trim(s));
    PlaceKeeps(TrimStart(Trim(s)), '\\');
  }

  // A name without backslash is unpacked to a place of at most its own weight, and of less if it is dirty.
  lemma {:induction false} DirtyIsLighter(path: string)
    requires path != "" && path[0] != '/' && '\\' !in path && Sanitize(Slashes(path)).Ok?
    ensures Kept(Place(path)) == Weight(path)
    ensures if Clean(path) then Sanitize(Slashes(path)).value == Place(path)
            else Kept(Sanitize(Slashes(path)).value) < Weight(path)
  {
    CleanIsSame(path);
    assert forall i :: 0 <= i < |path| ==> path[i] in path;
    assert Slashes(path) == path;
    KeptFiltered(Split(path, '/'));
    TrimLightens(path);
    var rel := TrimStart(Trim(path));
    KeptFiltered(Split(rel, '/'));
    TrimStartKeepsWeight(Trim(path));
    assert TrimStart(path) == path;
    hide Split, Filter, Kept;
    if Clean(path) {
      CleanStaysPut(path);
    }
  }

  // A relative name is unpacked where it was found if and only if it is clean.
  lemma {:induction false} CleanIff(path: string)
    requires path != "" && path[0] != '/'
    ensures Sanitize(Slashes(path)) == Ok(Place(path)) <==> Clean(path)
  {
    if Clean(path) {
      CleanStaysPut(path);
    } else if Sanitize(Slashes(path)) == Ok(Place(path)) {
      NoBackslashLeft(path);
      PlaceKeeps(path, '\\');
      DirtyIsLighter(path);
    }
  }

  // Whatever name an archive contains, the file it is unpacked to is a proper path below the target
  // directory.
  lemma {:induction false} UnpackStaysBelow(path: string)
    requires Sanitize(path).Ok?
    ensures var p := Sanitize(path).value;
            p != [] && forall name :: name in p ==> name !in {"", ".", ".."} && '/' !in name && '\0' !in name
  {
    var rel := TrimStart(Trim(path));
    DotDotIsKept(rel);
    NormalPieces(rel);
    FilterTwice(Split(rel, '/'));
    LastPieceIsPart(rel);
    if ".." in Split(rel, '/') {
      DotDotPart(rel);
    }
    PlaceKeeps(rel, '\0');
    assert LastPiece(rel) in Split(rel, '/');
    hide Split, Filter, LastPiece, HasDotDot, Trim, TrimStart;
  }

  // A slash in front of a name makes no difference.
  lemma {:induction false} SlashInFront(path: string)
    requires path != "" && !IsSpace(path[0]) && !IsSpace(path[|path| - 1])
    ensures Sanitize("/" + path) == Sanitize(path)
  {
    assert ("/" + path)[1..] == path;
    assert Trim("/" + path) == "/" + path && Trim(path) == path;
  }
}
