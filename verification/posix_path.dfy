/** `os.path.join` as the POSIX flavour of Python's `posixpath` defines it. */
module PosixPath {
  import opened Text

  const Sep: char := '/'

  /** True when `path` is non-empty and its last character is not `/`. */
  predicate NeedsSep(path: string)
  {
    |path| > 0 && path[|path| - 1] != Sep
  }

  /** One step of `posixpath.join`: an absolute component replaces what was
      built so far; otherwise `/` is inserted unless the path is empty or
      already ends with `/`. */
  function JoinStep(path: string, b: string): string
  {
    if StartsWith(b, [Sep]) then b
    else if !NeedsSep(path) then path + b
    else path + [Sep] + b
  }

  /** `s` ends with `suffix`. */
  predicate EndsWith(s: string, suffix: string)
  {
    |suffix| <= |s| && s[|s| - |suffix|..] == suffix
  }

  /** `os.path.join(a, *parts)`: with no pieces it is the base, and it is
      the last piece alone when that piece is absolute. */
  function Join(a: string, parts: seq<string>): (r: string)
    ensures |parts| == 0 ==> r == a
    ensures |parts| > 0 && StartsWith(parts[|parts| - 1], [Sep]) ==> r == parts[|parts| - 1]
    decreases |parts|
  {
    if |parts| == 0 then a else Join(JoinStep(a, parts[0]), parts[1..])
  }

  /** Every step appends its piece (or is the piece), so a join ends with
      its last piece. */
  lemma {:induction false} JoinEndsWithLast(a: string, parts: seq<string>)
    requires |parts| > 0
    ensures EndsWith(Join(a, parts), parts[|parts| - 1])
    decreases |parts|
  {
    var step := JoinStep(a, parts[0]);
    if |parts| == 1 {
      assert Join(a, parts) == Join(step, []);
      assert step[|step| - |parts[0]|..] == parts[0];
    } else {
      JoinEndsWithLast(step, parts[1..]);
    }
  }

  /** An absolute piece discards everything joined before it. */
  lemma {:induction false} JoinAbsoluteRestarts(a: string, parts: seq<string>, i: nat)
    requires i < |parts| && StartsWith(parts[i], [Sep])
    ensures Join(a, parts) == Join(parts[i], parts[i + 1..])
    decreases i
  {
    if i == 0 {
      assert Join(a, parts) == Join(JoinStep(a, parts[0]), parts[1..]);
    } else {
      var a' := JoinStep(a, parts[0]);
      assert parts[1..][i - 1] == parts[i];
      JoinAbsoluteRestarts(a', parts[1..], i - 1);
      assert parts[1..][i - 1 + 1..] == parts[i + 1..];
    }
  }

  /** Components that are not absolute never discard the base: the joined
      path begins with it. */
  lemma {:induction false} JoinKeepsBase(a: string, parts: seq<string>)
    requires forall i :: 0 <= i < |parts| ==> !StartsWith(parts[i], [Sep])
    ensures StartsWith(Join(a, parts), a)
    decreases |parts|
  {
    if |parts| > 0 {
      var a' := JoinStep(a, parts[0]);
      assert a'[..|a|] == a;
      JoinKeepsBase(a', parts[1..]);
      var r := Join(a', parts[1..]);
      assert r[..|a|] == r[..|a'|][..|a|];
    }
  }

  /** With a base that does not end in `/` and non-empty components free of
      `/`, joining is plain concatenation with `/` between the pieces. */
  lemma {:induction false} JoinPlain(a: string, parts: seq<string>)
    requires NeedsSep(a)
    requires |parts| >= 1
    requires forall i :: 0 <= i < |parts| ==> |parts[i]| > 0 && Sep !in parts[i]
    ensures Join(a, parts) == a + [Sep] + JoinWith(parts, Sep)
    decreases |parts|
  {
    var p0 := parts[0];
    assert !StartsWith(p0, [Sep]) by { assert p0[0] != Sep; }
    var a' := a + [Sep] + p0;
    assert JoinStep(a, p0) == a';
    if |parts| == 1 {
    } else {
      assert a'[|a'| - 1] == p0[|p0| - 1];
      JoinPlain(a', parts[1..]);
      assert Join(a, parts) == a' + [Sep] + JoinWith(parts[1..], Sep);
    }
  }

  /** An empty piece adds no doubled separator, and a trailing empty piece
      leaves a trailing `/`. */
  lemma JoinEmptyPieces()
    ensures Join("/r", ["a", "", "b"]) == "/r/a/b"
    ensures Join("/r", [""]) == "/r/"
  {
    assert !StartsWith("a", [Sep]) by { assert "a"[..1] == "a"; }
    assert !StartsWith("b", [Sep]) by { assert "b"[..1] == "b"; }
    assert !StartsWith("", [Sep]);
    assert JoinStep("/r", "a") == "/r/a";
    assert JoinStep("/r/a", "") == "/r/a/";
    assert JoinStep("/r/a/", "b") == "/r/a/b";
    assert JoinStep("/r", "") == "/r/";
  }
}
