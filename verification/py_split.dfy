/** Python's `str.split(sep)` for a non-empty separator: cut the string at
    every occurrence of `sep`, scanning left to right without overlap, and
    keep empty pieces. `Join` is `sep.join(parts)`, which undoes it. */
module PySplit {
  import opened Wrappers

  /** `sep` occurs in `s` starting at index `i`. */
  predicate OccursAt(s: string, sep: string, i: nat) {
    i + |sep| <= |s| && s[i..i + |sep|] == sep
  }

  /** `sep` occurs nowhere in `s`. */
  predicate Free(s: string, sep: string) {
    forall i: nat :: i <= |s| ==> !OccursAt(s, sep, i)
  }

  /** `str.find`: the leftmost index at which `sep` occurs, if any. */
  function Find(s: string, sep: string): (r: Option<nat>)
    requires |sep| > 0
    ensures r.Some? ==> OccursAt(s, sep, r.value)
    ensures r.Some? ==> forall j: nat :: j < r.value ==> !OccursAt(s, sep, j)
    ensures r.None? ==> Free(s, sep)
  {
    FindFrom(s, sep, 0)
  }

  /** The leftmost occurrence of `sep` at index `k` or later. */
  function FindFrom(s: string, sep: string, k: nat): (r: Option<nat>)
    requires |sep| > 0
    ensures r.Some? ==> k <= r.value && OccursAt(s, sep, r.value)
    ensures r.Some? ==> forall j: nat :: k <= j < r.value ==> !OccursAt(s, sep, j)
    ensures r.None? ==> forall j: nat :: k <= j ==> !OccursAt(s, sep, j)
    decreases |s| - k
  {
    if k + |sep| > |s| then None
    else if OccursAt(s, sep, k) then Some(k)
    else FindFrom(s, sep, k + 1)
  }

  /** An occurrence inside a prefix of `s` is an occurrence in `s`. */
  lemma PrefixOccurs(s: string, sep: string, n: nat, j: nat)
    requires n <= |s|
    requires OccursAt(s[..n], sep, j)
    ensures OccursAt(s, sep, j)
  {
    assert s[..n][j..j + |sep|] == s[j..j + |sep|];
  }

  /** `sep.join(parts)`. */
  function Join(parts: seq<string>, sep: string): string {
    if |parts| == 0 then ""
    else if |parts| == 1 then parts[0]
    else parts[0] + sep + Join(parts[1..], sep)
  }

  /** `s.split(sep)`: at least one piece, the first piece ends at the
      leftmost occurrence, and joining the pieces with `sep` gives back
      `s`. */
  function Split(s: string, sep: string): (parts: seq<string>)
    requires |sep| > 0
    ensures |parts| >= 1
    ensures forall j: nat :: j < |parts[0]| ==> !OccursAt(s, sep, j)
    ensures Join(parts, sep) == s
    decreases |s|
  {
    match Find(s, sep)
    case None => [s]
    case Some(i) =>
      assert s == s[..i] + sep + s[i + |sep|..];
      [s[..i]] + Split(s[i + |sep|..], sep)
  }

  /** No piece of a split contains `sep`. */
  lemma {:induction false} SplitPiecesFree(s: string, sep: string)
    requires |sep| > 0
    ensures forall k :: 0 <= k < |Split(s, sep)| ==> Free(Split(s, sep)[k], sep)
    decreases |s|
  {
    match Find(s, sep)
    case None =>
    case Some(i) =>
      var head := s[..i];
      assert Free(head, sep) by {
        forall j: nat | OccursAt(head, sep, j) ensures false {
          PrefixOccurs(s, sep, i, j);
        }
      }
      SplitPiecesFree(s[i + |sep|..], sep);
  }

  /** The first piece of a split is a prefix of the string, followed by
      `sep` when there are more pieces and by nothing otherwise. */
  lemma FirstPiece(s: string, sep: string)
    requires |sep| > 0
    ensures var parts := Split(s, sep);
      && |parts[0]| <= |s| && s[..|parts[0]|] == parts[0]
      && (|parts| == 1 ==> parts[0] == s)
      && (|parts| >= 2 ==> OccursAt(s, sep, |parts[0]|))
  {
    var parts := Split(s, sep);
    if |parts| >= 2 {
      var p := parts[0];
      assert s == p + sep + Join(parts[1..], sep);
      assert s[|p|..|p| + |sep|] == sep;
    }
  }

  /** A string without `sep` is split into itself alone. */
  lemma SplitFree(s: string, sep: string)
    requires |sep| > 0
    requires Free(s, sep)
    ensures Split(s, sep) == [s]
  {
  }

  /** Joining with a separator puts it between the last piece and the rest. */
  lemma {:induction false} JoinLast(parts: seq<string>, sep: string)
    requires |parts| >= 2
    ensures Join(parts, sep) == Join(parts[..|parts| - 1], sep) + sep + parts[|parts| - 1]
    decreases |parts|
  {
    if |parts| > 2 {
      JoinLast(parts[1..], sep);
      assert parts[1..][..|parts| - 2] == parts[..|parts| - 1][1..];
    }
  }

  /** A one-character separator is free exactly when the character is absent. */
  lemma FreeChar(s: string, c: char)
    ensures Free(s, [c]) <==> c !in s
  {
    if c in s {
      var i :| 0 <= i < |s| && s[i] == c;
      assert s[i..i + 1] == [c];
      assert OccursAt(s, [c], i);
    } else {
      forall i: nat ensures !OccursAt(s, [c], i) {
        if i + 1 <= |s| {
          assert s[i..i + 1][0] == s[i];
        }
      }
    }
  }

  /** `Find` returns the leftmost occurrence it is shown. */
  lemma FindIs(s: string, sep: string, i: nat)
    requires |sep| > 0
    requires OccursAt(s, sep, i)
    requires forall j: nat :: j < i ==> !OccursAt(s, sep, j)
    ensures Find(s, sep) == Some(i)
  {
  }

  /** For a one-character separator, splitting undoes joining pieces that
      do not contain the character. */
  lemma {:induction false} SplitJoin(parts: seq<string>, c: char)
    requires |parts| >= 1
    requires forall k :: 0 <= k < |parts| ==> c !in parts[k]
    ensures Split(Join(parts, [c]), [c]) == parts
    decreases |parts|
  {
    var s := Join(parts, [c]);
    if |parts| == 1 {
      FreeChar(parts[0], c);
      SplitFree(parts[0], [c]);
    } else {
      var p := parts[0];
      var tail := Join(parts[1..], [c]);
      assert s == p + [c] + tail;
      assert OccursAt(s, [c], |p|) by {
        assert s[|p|..|p| + 1] == [c];
      }
      forall j: nat | j < |p| ensures !OccursAt(s, [c], j) {
        assert s[j..j + 1] == [p[j]];
      }
      FindIs(s, [c], |p|);
      assert s[..|p|] == p;
      assert s[|p| + 1..] == tail;
      SplitJoin(parts[1..], c);
      assert Split(s, [c]) == [p] + parts[1..];
    }
  }
}
