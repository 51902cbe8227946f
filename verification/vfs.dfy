/** The two pieces of `xbmcvfs` that carry logic of their own: translating a
    `special://<root>/<rest>` path through the virtual-root table, and
    splitting a directory listing into sub-directories and files. The other
    functions of the module are direct operating-system calls. */
module Vfs {
  import opened Base
  import opened Text
  import opened PosixPath

  const SpecialPrefix: string := "special://"

  /** The two `ValueError`s `translatePath` can raise. */
  datatype PathError =
    | CannotUnpack(got: nat)          // fewer than two tokens after the scheme
    | NotAValidRootDir(root: string)  // root name missing from the root table

  /** `translatePath(path)` with the root table (`kodi_paths`) as a parameter.
      A special path is cut with `path.split("/", 3)[2:]` into a root name
      and a remainder; the remainder's `/`-separated pieces are joined onto
      the real root with `os.path.join`. */
  function TranslatePath(path: string, roots: map<string, string>): (r: Result<string, PathError>)
    ensures !StartsWith(path, SpecialPrefix) ==> r == Ok(path)
  {
    if !StartsWith(path, SpecialPrefix) then Ok(path)
    else
      var tokens := SplitMax(path, '/', 3);
      var tail := if |tokens| < 2 then [] else tokens[2..];  // Python slices clamp
      if |tail| != 2 then Err(CannotUnpack(|tail|))
      else
        var root, rest := tail[0], tail[1];
        if root !in roots then Err(NotAValidRootDir(root))
        else Ok(Join(roots[root], Split(rest, '/')))
  }

  /** Reference reading of a special path: the root name is the text between
      `special://` and the next `/`, the remainder everything after that `/`;
      `None` when no `/` follows the root name. */
  function SpecialParts(path: string): Option<(string, string)>
    requires StartsWith(path, SpecialPrefix)
  {
    var after := path[|SpecialPrefix|..];
    match Find(after, '/')
    case None => None
    case Some(i) => Some((after[..i], after[i + 1..]))
  }

  /** The limited split of a special path always yields `special:` and the
      empty token first; the rest is a one-split cut of the text after the
      scheme. */
  lemma SpecialTokens(path: string)
    requires StartsWith(path, SpecialPrefix)
    ensures SplitMax(path, '/', 3) == ["special:", ""] + SplitMax(path[10..], '/', 1)
  {
    assert path[..10] == "special://";
    assert path[..8] == "special:";
    FindFirst(path, '/', 8);
    var s1 := path[9..];
    assert s1[0] == '/';
    FindFirst(s1, '/', 0);
    assert s1[1..] == path[10..];
  }

  /** `translatePath` on a special path does exactly what the reference
      reading says: no `/` after the root name fails at the two-way
      unpacking, an unknown root fails the lookup, and a known root joins the
      real root with the remainder's pieces. */
  lemma TranslatePathReadsRootName(path: string, roots: map<string, string>)
    requires StartsWith(path, SpecialPrefix)
    ensures SpecialParts(path).None? ==> TranslatePath(path, roots) == Err(CannotUnpack(1))
    ensures SpecialParts(path).Some? && SpecialParts(path).value.0 !in roots ==>
      TranslatePath(path, roots) == Err(NotAValidRootDir(SpecialParts(path).value.0))
    ensures SpecialParts(path).Some? && SpecialParts(path).value.0 in roots ==>
      TranslatePath(path, roots) ==
        Ok(Join(roots[SpecialParts(path).value.0], Split(SpecialParts(path).value.1, '/')))
  {
    SpecialTokens(path);
    SplitOnce(path[10..], '/');
  }

  /** A special path fails exactly when no `/` follows the root name or the
      root name is unknown. */
  lemma TranslatePathFails(path: string, roots: map<string, string>)
    ensures TranslatePath(path, roots).Err? <==>
      StartsWith(path, SpecialPrefix) &&
      (SpecialParts(path).None? || SpecialParts(path).value.0 !in roots)
  {
    if StartsWith(path, SpecialPrefix) {
      TranslatePathReadsRootName(path, roots);
    }
  }

  /** With a known root the translated path begins with the real root. */
  lemma TranslatePathUnderRoot(path: string, roots: map<string, string>)
    requires StartsWith(path, SpecialPrefix)
    requires SpecialParts(path).Some? && SpecialParts(path).value.0 in roots
    ensures TranslatePath(path, roots).Ok?
    ensures StartsWith(TranslatePath(path, roots).value, roots[SpecialParts(path).value.0])
  {
    var (root, rest) := SpecialParts(path).value;
    var parts := Split(rest, '/');
    TranslatePathReadsRootName(path, roots);
    SplitPiecesNotAbsolute(rest);
    JoinKeepsBase(roots[root], parts);
  }

  /** No piece of a `/`-split is an absolute path. */
  lemma SplitPiecesNotAbsolute(rest: string)
    ensures forall i :: 0 <= i < |Split(rest, '/')| ==> !StartsWith(Split(rest, '/')[i], [Sep])
  {
    var parts := Split(rest, '/');
    forall i | 0 <= i < |parts|
      ensures !StartsWith(parts[i], [Sep])
    {
      assert Sep !in parts[i];
      if |parts[i]| > 0 {
        assert parts[i][..1][0] == parts[i][0];
      }
    }
  }

  /** When the real root does not end in `/` and the remainder has no empty
      piece, the translation is the real root, `/`, and the remainder. */
  lemma TranslatePathPlain(path: string, roots: map<string, string>)
    requires StartsWith(path, SpecialPrefix)
    requires SpecialParts(path).Some? && SpecialParts(path).value.0 in roots
    requires NeedsSep(roots[SpecialParts(path).value.0])
    requires forall i :: 0 <= i < |Split(SpecialParts(path).value.1, '/')| ==>
      |Split(SpecialParts(path).value.1, '/')[i]| > 0
    ensures TranslatePath(path, roots) ==
      Ok(roots[SpecialParts(path).value.0] + "/" + SpecialParts(path).value.1)
  {
    TranslatePathReadsRootName(path, roots);
    var (root, rest) := SpecialParts(path).value;
    JoinPlain(roots[root], Split(rest, '/'));
    SplitRejoins(rest, '/');
  }

  /** Building a special path from a root name and non-empty, `/`-free
      pieces and translating it yields the real root followed by the same
      pieces. */
  lemma TranslateBuiltPath(root: string, pieces: seq<string>, roots: map<string, string>)
    requires '/' !in root && root in roots && NeedsSep(roots[root])
    requires |pieces| >= 1
    requires forall i :: 0 <= i < |pieces| ==> |pieces[i]| > 0 && '/' !in pieces[i]
    ensures TranslatePath(SpecialPrefix + root + "/" + JoinWith(pieces, '/'), roots)
            == Ok(roots[root] + "/" + JoinWith(pieces, '/'))
  {
    var rest := JoinWith(pieces, '/');
    var p := SpecialPrefix + root + "/" + rest;
    assert p[..|SpecialPrefix|] == SpecialPrefix;
    var after := p[|SpecialPrefix|..];
    assert after == root + "/" + rest;
    assert after[..|root|] == root;
    FindFirst(after, '/', |root|);
    assert after[|root| + 1..] == rest;
    SplitJoinWith(pieces, '/');
    TranslatePathPlain(p, roots);
  }

  /** The example in `translatePath`'s documentation: a known root. */
  lemma TranslatePathExampleKnown()
    ensures TranslatePath("special://masterprofile/script_data",
                          map["masterprofile" := "/home/user/XBMC/UserData"])
            == Ok("/home/user/XBMC/UserData/script_data")
  {
    assert SpecialPrefix + "masterprofile" + "/" + "script_data" == "special://masterprofile/script_data";
    assert "/home/user/XBMC/UserData" + "/" + "script_data" == "/home/user/XBMC/UserData/script_data";
    assert JoinWith(["script_data"], '/') == "script_data";
    TranslateBuiltPath("masterprofile", ["script_data"], map["masterprofile" := "/home/user/XBMC/UserData"]);
  }

  /** An unknown root is rejected. */
  lemma TranslatePathExampleUnknown()
    ensures TranslatePath("special://unknown/x",
                          map["masterprofile" := "/home/user/XBMC/UserData"])
            == Err(NotAValidRootDir("unknown"))
  {
    var q := "special://unknown/x";
    assert StartsWith(q, SpecialPrefix);
    var after := q[10..];
    assert after == "unknown/x";
    assert after[..7] == "unknown";
    FindFirst(after, '/', 7);
    assert SpecialParts(q).value.0 == "unknown";
    TranslatePathReadsRootName(q, map["masterprofile" := "/home/user/XBMC/UserData"]);
  }

  /** A root name with no `/` after it fails before the lookup, even when
      the root is known. */
  lemma TranslatePathExampleNoSlash()
    ensures TranslatePath("special://home", map["home" := "/home/user"]) == Err(CannotUnpack(1))
  {
    var h := "special://home";
    assert StartsWith(h, SpecialPrefix);
    assert h[10..] == "home";
    assert '/' !in h[10..];
    TranslatePathReadsRootName(h, map["home" := "/home/user"]);
  }

  /** What the two selections promise together: membership by kind, a
      partition of the listing, and the listing's order. */
  lemma SelectionFacts(dir: string, names: seq<string>, isFile: string -> bool)
    ensures forall x :: x in OfKind(dir, names, isFile, true) <==> x in names && isFile(ItemPath(dir, x))
    ensures forall x :: x in OfKind(dir, names, isFile, false) <==> x in names && !isFile(ItemPath(dir, x))
    ensures multiset(OfKind(dir, names, isFile, false)) + multiset(OfKind(dir, names, isFile, true))
            == multiset(names)
    ensures |OfKind(dir, names, isFile, false)| + |OfKind(dir, names, isFile, true)| == |names|
    ensures IsSubsequence(OfKind(dir, names, isFile, false), names)
    ensures IsSubsequence(OfKind(dir, names, isFile, true), names)
  {
    forall x
      ensures x in OfKind(dir, names, isFile, true) <==> x in names && isFile(ItemPath(dir, x))
      ensures x in OfKind(dir, names, isFile, false) <==> x in names && !isFile(ItemPath(dir, x))
    {
      OfKindMembers(dir, names, isFile, true, x);
      OfKindMembers(dir, names, isFile, false, x);
    }
    OfKindPartition(dir, names, isFile);
    OfKindCount(dir, names, isFile);
    OfKindOrdered(dir, names, isFile, false);
    OfKindOrdered(dir, names, isFile, true);
  }

  /** The result of `listdir`: sub-directory names, then file names. */
  datatype DirListing = DirListing(dirs: seq<string>, files: seq<string>)

  /** The error `os.listdir` raises for a path that is missing or not a
      directory; `listdir` lets it through unchanged. */
  datatype OsError = OsError(path: string)

  /** The path `listdir` asks `isfile` about for one entry. */
  function ItemPath(dir: string, name: string): string
  {
    Join(dir, [name])
  }

  /** Reference definition: the names of `names`, in order, whose item path
      `isFile` classifies as `wantFiles`. */
  function OfKind(dir: string, names: seq<string>, isFile: string -> bool, wantFiles: bool): seq<string>
  {
    if |names| == 0 then []
    else
      var last := names[|names| - 1];
      OfKind(dir, names[..|names| - 1], isFile, wantFiles)
        + (if isFile(ItemPath(dir, last)) == wantFiles then [last] else [])
  }

  /** `x` is among the selected names exactly when it is listed and of the
      wanted kind. */
  lemma {:induction false} OfKindMembers(dir: string, names: seq<string>, isFile: string -> bool, wantFiles: bool, x: string)
    ensures x in OfKind(dir, names, isFile, wantFiles) <==>
      x in names && isFile(ItemPath(dir, x)) == wantFiles
  {
    if |names| > 0 {
      var init := names[..|names| - 1];
      OfKindMembers(dir, init, isFile, wantFiles, x);
      assert names == init + [names[|names| - 1]];
    }
  }

  /** Appending one name extends exactly the selection of its kind. */
  lemma OfKindSnoc(dir: string, init: seq<string>, last: string, isFile: string -> bool, wantFiles: bool)
    ensures OfKind(dir, init + [last], isFile, wantFiles) ==
      OfKind(dir, init, isFile, wantFiles) + (if isFile(ItemPath(dir, last)) == wantFiles then [last] else [])
  {
    assert (init + [last])[..|init|] == init;
  }

  /** Every listed name lands in exactly one of the two selections. */
  lemma {:induction false} OfKindPartition(dir: string, names: seq<string>, isFile: string -> bool)
    ensures multiset(OfKind(dir, names, isFile, false)) + multiset(OfKind(dir, names, isFile, true))
            == multiset(names)
  {
    if |names| > 0 {
      var init := names[..|names| - 1];
      var last := names[|names| - 1];
      assert names == init + [last];
      OfKindPartition(dir, init, isFile);
      OfKindSnoc(dir, init, last, isFile, false);
      OfKindSnoc(dir, init, last, isFile, true);
      var d := OfKind(dir, init, isFile, false);
      var f := OfKind(dir, init, isFile, true);
      assert multiset(names) == multiset(init) + multiset{last};
      if isFile(ItemPath(dir, last)) {
        assert multiset(OfKind(dir, names, isFile, true)) == multiset(f) + multiset{last};
      } else {
        assert multiset(OfKind(dir, names, isFile, false)) == multiset(d) + multiset{last};
      }
    }
  }

  /** The two selections together are as long as the listing. */
  lemma OfKindCount(dir: string, names: seq<string>, isFile: string -> bool)
    ensures |OfKind(dir, names, isFile, false)| + |OfKind(dir, names, isFile, true)| == |names|
  {
    OfKindPartition(dir, names, isFile);
    assert |multiset(OfKind(dir, names, isFile, false))| + |multiset(OfKind(dir, names, isFile, true))|
           == |multiset(names)|;
  }

  /** `a` is `b` with some elements left out, the rest in the same order. */
  predicate IsSubsequence(a: seq<string>, b: seq<string>)
    decreases |b|
  {
    if |a| == 0 then true
    else if |b| == 0 then false
    else if a[|a| - 1] == b[|b| - 1] then IsSubsequence(a[..|a| - 1], b[..|b| - 1])
    else IsSubsequence(a, b[..|b| - 1])
  }

  /** Each selection keeps the listing's order. */
  lemma {:induction false} OfKindOrdered(dir: string, names: seq<string>, isFile: string -> bool, wantFiles: bool)
    ensures IsSubsequence(OfKind(dir, names, isFile, wantFiles), names)
  {
    if |names| > 0 {
      var init := names[..|names| - 1];
      var last := names[|names| - 1];
      var sel := OfKind(dir, init, isFile, wantFiles);
      OfKindOrdered(dir, init, isFile, wantFiles);
      if isFile(ItemPath(dir, last)) == wantFiles {
        assert OfKind(dir, names, isFile, wantFiles) == sel + [last];
        assert (sel + [last])[..|sel|] == sel;
      } else {
        assert OfKind(dir, names, isFile, wantFiles) == sel;
        if |sel| > 0 {
          SubsequenceExtend(sel, init, last);
        }
      }
    }
  }

  /** A subsequence stays one when the longer sequence grows at the end. */
  lemma {:induction false} SubsequenceExtend(a: seq<string>, b: seq<string>, x: string)
    requires IsSubsequence(a, b)
    ensures IsSubsequence(a, b + [x])
    decreases |b|, 1
  {
    assert (b + [x])[..|b|] == b;
    if |a| > 0 && a[|a| - 1] == x {
      SubsequenceDrop(a, b);
    }
  }

  /** Dropping the last element of a subsequence keeps it a subsequence. */
  lemma {:induction false} SubsequenceDrop(a: seq<string>, b: seq<string>)
    requires |a| > 0 && IsSubsequence(a, b)
    ensures IsSubsequence(a[..|a| - 1], b)
    decreases |b|, 0
  {
    var a' := a[..|a| - 1];
    var b' := b[..|b| - 1];
    assert b' + [b[|b| - 1]] == b;
    if |a'| > 0 {
      if a[|a| - 1] != b[|b| - 1] {
        SubsequenceDrop(a, b');
      }
      SubsequenceExtend(a', b', b[|b| - 1]);
    }
  }

  /** `listdir(path)` for the already-resolved directory `dir`. `listing` is
      what `os.listdir` reports (`None` when it raises) and `isFile` stands
      for `os.path.isfile`. Each entry's joined path is classified: files
      go to `files`, everything else to `dirs`, both in listing order. */
  method Listdir(dir: string, listing: Option<seq<string>>, isFile: string -> bool)
    returns (r: Result<DirListing, OsError>)
    ensures r.Err? <==> listing.None?
    ensures r.Err? ==> r.error == OsError(dir)
    ensures r.Ok? ==> r.value.dirs == OfKind(dir, listing.value, isFile, false)
    ensures r.Ok? ==> r.value.files == OfKind(dir, listing.value, isFile, true)
    ensures r.Ok? ==> forall x :: x in r.value.files <==> x in listing.value && isFile(ItemPath(dir, x))
    ensures r.Ok? ==> forall x :: x in r.value.dirs <==> x in listing.value && !isFile(ItemPath(dir, x))
    ensures r.Ok? ==> multiset(r.value.dirs) + multiset(r.value.files) == multiset(listing.value)
    ensures r.Ok? ==> |r.value.dirs| + |r.value.files| == |listing.value|
    ensures r.Ok? ==> IsSubsequence(r.value.dirs, listing.value)
    ensures r.Ok? ==> IsSubsequence(r.value.files, listing.value)
  {
    if listing.None? {
      return Err(OsError(dir));
    }
    var names := listing.value;
    var dirs: seq<string> := [];
    var files: seq<string> := [];
    var i := 0;
    while i < |names|
      invariant 0 <= i <= |names|
      invariant dirs == OfKind(dir, names[..i], isFile, false)
      invariant files == OfKind(dir, names[..i], isFile, true)
    {
      var name := names[i];
      var itemPath := ItemPath(dir, name);
      assert names[..i + 1] == names[..i] + [name];
      OfKindSnoc(dir, names[..i], name, isFile, false);
      OfKindSnoc(dir, names[..i], name, isFile, true);
      if isFile(itemPath) {
        files := files + [name];
      } else {
        dirs := dirs + [name];
      }
      i := i + 1;
    }
    assert names[..i] == names;
    SelectionFacts(dir, names, isFile);
    return Ok(DirListing(dirs, files));
  }
}
