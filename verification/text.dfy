/** The few Python `str` operations the shim relies on, over `seq<char>`:
    `startswith`, `find`, `split` (with and without `maxsplit`) and
    `sep.join`. */
module Text {
  import opened Base

  /** Python's `s.startswith(prefix)`. */
  predicate StartsWith(s: string, prefix: string)
  {
    |prefix| <= |s| && s[..|prefix|] == prefix
  }

  /** Position of the first `c` in `s` at or after `from`. */
  function FindFrom(s: string, c: char, from: nat): (r: Option<nat>)
    requires from <= |s|
    ensures r.Some? ==> from <= r.value < |s| && s[r.value] == c
    ensures r.Some? ==> forall j :: from <= j < r.value ==> s[j] != c
    ensures r.None? ==> forall j :: from <= j < |s| ==> s[j] != c
    decreases |s| - from
  {
    if from == |s| then None
    else if s[from] == c then Some(from)
    else FindFrom(s, c, from + 1)
  }

  /** Position of the first `c` in `s`: Python's `s.find(c)`, with `None`
      standing for -1. */
  function Find(s: string, c: char): (r: Option<nat>)
    ensures r.Some? ==> r.value < |s| && s[r.value] == c && c !in s[..r.value]
    ensures r.None? <==> c !in s
  {
    var r := FindFrom(s, c, 0);
    assert r.Some? ==> s[..r.value] + s[r.value..] == s;
    r
  }

  /** Python's `sep.join(parts)` for a one-character separator. */
  function JoinWith(parts: seq<string>, sep: char): string
  {
    if |parts| == 0 then ""
    else if |parts| == 1 then parts[0]
    else parts[0] + [sep] + JoinWith(parts[1..], sep)
  }

  /** Python's `s.split(sep, maxsplit)`: at most `maxsplit` splits, taken
      from the left; empty pieces are kept. */
  function SplitMax(s: string, sep: char, maxsplit: nat): (parts: seq<string>)
    ensures 1 <= |parts| <= maxsplit + 1
    decreases maxsplit
  {
    if maxsplit == 0 then [s]
    else
      match Find(s, sep)
      case None => [s]
      case Some(i) => [s[..i]] + SplitMax(s[i + 1..], sep, maxsplit - 1)
  }

  /** Python's `s.split(sep)` with no limit. */
  function Split(s: string, sep: char): (parts: seq<string>)
    ensures |parts| >= 1
    ensures forall i :: 0 <= i < |parts| ==> sep !in parts[i]
    decreases |s|
  {
    match Find(s, sep)
    case None => [s]
    case Some(i) => [s[..i]] + Split(s[i + 1..], sep)
  }

  /** The pieces of a limited split rejoin to the input. */
  lemma {:induction false} SplitMaxRejoins(s: string, sep: char, maxsplit: nat)
    ensures JoinWith(SplitMax(s, sep, maxsplit), sep) == s
    decreases maxsplit
  {
    if maxsplit > 0 && Find(s, sep).Some? {
      var i := Find(s, sep).value;
      SplitMaxRejoins(s[i + 1..], sep, maxsplit - 1);
      RejoinStep(s, sep, i, SplitMax(s[i + 1..], sep, maxsplit - 1));
    }
  }

  /** One cut at the separator at `i`, followed by pieces that rejoin to
      what follows it, rejoins to `s`. */
  lemma RejoinStep(s: string, sep: char, i: nat, rest: seq<string>)
    requires i < |s| && s[i] == sep
    requires |rest| >= 1 && JoinWith(rest, sep) == s[i + 1..]
    ensures JoinWith([s[..i]] + rest, sep) == s
  {
    var parts := [s[..i]] + rest;
    assert parts[1..] == rest;
    assert s == s[..i] + [sep] + s[i + 1..];
  }

  /** Only the last piece of a limited split may hold the separator, and
      not even that one when fewer than `maxsplit` splits were made. */
  lemma {:induction false} SplitMaxPieces(s: string, sep: char, maxsplit: nat)
    ensures forall i :: 0 <= i < |SplitMax(s, sep, maxsplit)| - 1 ==> sep !in SplitMax(s, sep, maxsplit)[i]
    ensures |SplitMax(s, sep, maxsplit)| <= maxsplit ==>
      sep !in SplitMax(s, sep, maxsplit)[|SplitMax(s, sep, maxsplit)| - 1]
    decreases maxsplit
  {
    if maxsplit > 0 && Find(s, sep).Some? {
      var i := Find(s, sep).value;
      var rest := SplitMax(s[i + 1..], sep, maxsplit - 1);
      var parts := SplitMax(s, sep, maxsplit);
      SplitMaxPieces(s[i + 1..], sep, maxsplit - 1);
      assert parts == [s[..i]] + rest;
      assert sep !in s[..i];
      forall j | 0 <= j < |parts| - 1
        ensures sep !in parts[j]
      {
        if j > 0 {
          assert parts[j] == rest[j - 1];
        }
      }
      assert parts[|parts| - 1] == rest[|rest| - 1];
    }
  }

  /** Joining the pieces of a split gives back the input. */
  lemma {:induction false} SplitRejoins(s: string, sep: char)
    ensures JoinWith(Split(s, sep), sep) == s
    decreases |s|
  {
    if Find(s, sep).Some? {
      var i := Find(s, sep).value;
      SplitRejoins(s[i + 1..], sep);
      RejoinStep(s, sep, i, Split(s[i + 1..], sep));
    }
  }

  /** `find` stops at the first occurrence. */
  lemma FindFirst(s: string, c: char, i: nat)
    requires i < |s| && s[i] == c && c !in s[..i]
    ensures Find(s, c) == Some(i)
  {
    assert s[..i] + s[i..] == s;
  }

  /** Splitting with a one-split limit cuts at the first separator, if any. */
  lemma SplitOnce(s: string, sep: char)
    ensures Find(s, sep).None? ==> SplitMax(s, sep, 1) == [s]
    ensures Find(s, sep).Some? ==>
      var i := Find(s, sep).value;
      SplitMax(s, sep, 1) == [s[..i], s[i + 1..]]
  {
  }

  /** Splitting undoes joining when no piece holds the separator: the
      inverse direction of `SplitRejoins`. */
  lemma {:induction false} SplitJoinWith(parts: seq<string>, sep: char)
    requires |parts| >= 1
    requires forall i :: 0 <= i < |parts| ==> sep !in parts[i]
    ensures Split(JoinWith(parts, sep), sep) == parts
  {
    if |parts| == 1 {
      assert sep !in parts[0];
    } else {
      var p0 := parts[0];
      var tail := JoinWith(parts[1..], sep);
      var s := JoinWith(parts, sep);
      assert s == p0 + [sep] + tail;
      assert s[..|p0|] == p0;
      FindFirst(s, sep, |p0|);
      assert s[|p0| + 1..] == tail;
      SplitJoinWith(parts[1..], sep);
      assert Split(s, sep) == [p0] + Split(tail, sep);
    }
  }
}
