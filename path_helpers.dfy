/**
 * Path helpers shared by both tree builders: splitting a path into its
 * directory and file name, the positional agreement of two split paths
 * (`longestCommonPath`), and the first-longest choice among agreements that
 * `collapse` and `makeEntry` make with their max-finding loops.
 */
module PathHelpers {
  import opened Text

  // ---------------------------------------------------------------- path / file name

  /** `getPath(file)`: every segment but the last, joined with "/". */
  function GetPath(file: string): string
  {
    var s := Split(file);
    Join(s[..|s| - 1])
  }

  /** `getFilename(file)`: the last "/"-segment. */
  function GetFilename(file: string): string
  {
    var s := Split(file);
    s[|s| - 1]
  }

  /** The number of "/"-segments, the key of `sortByRelative`. */
  function SegmentCount(file: string): (n: nat)
    ensures n >= 1
  {
    |Split(file)|
  }

  /**
   * Splitting at the last "/" and rejoining gives the path back; without a
   * "/" the directory is empty and the file name is the whole path.
   */
  lemma PathFilenameRejoin(p: string)
    ensures NoSlash(p) ==> GetPath(p) == "" && GetFilename(p) == p
    ensures !NoSlash(p) ==> GetPath(p) + "/" + GetFilename(p) == p
    ensures NoSlash(GetFilename(p))
  {
    var s := Split(p);
    JoinSplit(p);
    SplitSingleIffNoSlash(p);
    SplitSegmentsHaveNoSlash(p);
    if |s| >= 2 {
      JoinSnoc(s);
    } else {
      assert s[..0] == [];
    }
  }

  // ---------------------------------------------------------------- positional agreement

  /** The segment at `j` exists and is not "" (the `!a[j]` test fails). */
  predicate Present(a: seq<string>, j: nat)
  {
    j < |a| && a[j] != ""
  }

  /**
   * What `longestCommonPath(a, b)` collects from position `j` on: `a[k]` for
   * every `k` with `a[k] == b[k]`, until either side runs out or holds "".
   */
  function CommonPathFrom(a: seq<string>, b: seq<string>, j: nat): seq<string>
    decreases |b| - j
  {
    if j >= |b| || !Present(a, j) || !Present(b, j) then []
    else (if a[j] == b[j] then [a[j]] else []) + CommonPathFrom(a, b, j + 1)
  }

  function CommonPath(a: seq<string>, b: seq<string>): seq<string>
  {
    CommonPathFrom(a, b, 0)
  }

  /** `longestCommonPath`, the loop with an early return. */
  method LongestCommonPath(a: seq<string>, b: seq<string>) returns (cand: seq<string>)
    ensures cand == CommonPath(a, b)
  {
    cand := [];
    var j := 0;
    while j < |b|
      invariant j <= |b|
      invariant cand + CommonPathFrom(a, b, j) == CommonPath(a, b)
      decreases |b| - j
    {
      if !Present(a, j) || !Present(b, j) {
        assert CommonPathFrom(a, b, j) == [];
        assert cand == cand + [];
        return;
      }
      if a[j] == b[j] {
        cand := cand + [a[j]];
      }
      j := j + 1;
    }
    assert cand == cand + [];
  }

  /** The positions `CommonPathFrom` took its segments from. */
  function CommonPositionsFrom(a: seq<string>, b: seq<string>, j: nat): seq<nat>
    decreases |b| - j
  {
    if j >= |b| || !Present(a, j) || !Present(b, j) then []
    else (if a[j] == b[j] then [j] else []) + CommonPositionsFrom(a, b, j + 1)
  }

  /**
   * `r` is taken from `a` and `b` at the strictly increasing positions
   * `pos`, where both hold the same segment.
   */
  ghost predicate TakenAt(r: seq<string>, a: seq<string>, b: seq<string>, pos: seq<nat>)
  {
    |pos| == |r|
    && (forall k, m :: 0 <= k < m < |pos| ==> pos[k] < pos[m])
    && (forall k :: 0 <= k < |pos| ==> pos[k] < |a| && pos[k] < |b| && r[k] == a[pos[k]] && r[k] == b[pos[k]])
  }

  lemma {:induction false} CommonPathFromTaken(a: seq<string>, b: seq<string>, j: nat)
    ensures TakenAt(CommonPathFrom(a, b, j), a, b, CommonPositionsFrom(a, b, j))
    ensures forall k :: 0 <= k < |CommonPositionsFrom(a, b, j)| ==> j <= CommonPositionsFrom(a, b, j)[k]
    decreases |b| - j
  {
    if j < |b| && Present(a, j) && Present(b, j) {
      CommonPathFromTaken(a, b, j + 1);
    }
  }

  /**
   * The agreement is a subsequence of both paths, taken where they agree,
   * and so is no longer than either.
   */
  lemma CommonPathIsCommonSubsequence(a: seq<string>, b: seq<string>)
    ensures TakenAt(CommonPath(a, b), a, b, CommonPositionsFrom(a, b, 0))
    ensures |CommonPath(a, b)| <= |a| && |CommonPath(a, b)| <= |b|
  {
    CommonPathFromTaken(a, b, 0);
    var r, pos := CommonPath(a, b), CommonPositionsFrom(a, b, 0);
    TakenPositionsBound(pos, if |a| < |b| then |a| else |b|);
  }

  /** Strictly increasing positions below `n` number at most `n`. */
  lemma {:induction false} TakenPositionsBound(pos: seq<nat>, n: nat)
    requires forall k, m :: 0 <= k < m < |pos| ==> pos[k] < pos[m]
    requires forall k :: 0 <= k < |pos| ==> pos[k] < n
    ensures |pos| <= n
  {
    if |pos| > 0 {
      var last := pos[|pos| - 1];
      TakenPositionsBound(pos[..|pos| - 1], last);
    }
  }

  /** The scan reads both paths the same way: the arguments commute. */
  lemma {:induction false} CommonPathFromSymmetric(a: seq<string>, b: seq<string>, j: nat)
    ensures CommonPathFrom(a, b, j) == CommonPathFrom(b, a, j)
    decreases |a| + |b| - j
  {
    if j < |b| && j < |a| && Present(a, j) && Present(b, j) {
      CommonPathFromSymmetric(a, b, j + 1);
    }
  }

  lemma CommonPathSymmetric(a: seq<string>, b: seq<string>)
    ensures CommonPath(a, b) == CommonPath(b, a)
  {
    CommonPathFromSymmetric(a, b, 0);
  }

  /**
   * A path with no empty segment agrees with any longer path it is a prefix
   * of in all its segments.
   */
  lemma {:induction false} CommonPathFromOfPrefix(a: seq<string>, b: seq<string>, j: nat)
    requires j <= |a| <= |b| && a == b[..|a|]
    requires forall k :: 0 <= k < |a| ==> a[k] != ""
    ensures CommonPathFrom(a, b, j) == a[j..]
    decreases |a| - j
  {
    if j < |a| {
      assert b[j] == a[j];
      CommonPathFromOfPrefix(a, b, j + 1);
      assert a[j..] == [a[j]] + a[j + 1..];
    }
  }

  lemma CommonPathOfPrefix(a: seq<string>, b: seq<string>)
    requires |a| <= |b| && a == b[..|a|]
    requires forall k :: 0 <= k < |a| ==> a[k] != ""
    ensures CommonPath(a, b) == a
  {
    CommonPathFromOfPrefix(a, b, 0);
  }

  // ---------------------------------------------------------------- first longest agreement

  /**
   * The agreement the max-finding loops of `collapse` and `makeEntry` keep
   * after visiting `paths` in order: a later agreement replaces the kept one
   * only when it is strictly longer.
   */
  function FirstLongest(paths: seq<seq<string>>, dir: seq<string>): seq<string>
  {
    if |paths| == 0 then []
    else
      var kept := FirstLongest(paths[..|paths| - 1], dir);
      var next := CommonPath(paths[|paths| - 1], dir);
      if |next| > |kept| then next else kept
  }

  /**
   * The kept agreement is at least as long as every agreement, and it is
   * either empty or the first agreement of its length.
   */
  lemma {:induction false} FirstLongestIsFirstMaximal(paths: seq<seq<string>>, dir: seq<string>)
    ensures forall j :: 0 <= j < |paths| ==> |CommonPath(paths[j], dir)| <= |FirstLongest(paths, dir)|
    ensures FirstLongest(paths, dir) == []
         || exists i :: 0 <= i < |paths| && FirstLongest(paths, dir) == CommonPath(paths[i], dir)
                        && forall j :: 0 <= j < i ==> |CommonPath(paths[j], dir)| < |FirstLongest(paths, dir)|
  {
    if |paths| > 0 {
      var init := paths[..|paths| - 1];
      FirstLongestIsFirstMaximal(init, dir);
      var kept := FirstLongest(init, dir);
      var next := CommonPath(paths[|paths| - 1], dir);
      assert forall j :: 0 <= j < |init| ==> paths[j] == init[j];
      if |next| > |kept| {
        if next != [] {
          var i := |paths| - 1;
          assert FirstLongest(paths, dir) == CommonPath(paths[i], dir);
        }
      } else if kept != [] {
        var i :| 0 <= i < |init| && kept == CommonPath(init[i], dir)
                 && forall j :: 0 <= j < i ==> |CommonPath(init[j], dir)| < |kept|;
        assert FirstLongest(paths, dir) == CommonPath(paths[i], dir);
      }
    }
  }

  /** The max-finding loop over `paths`, agreeing each with `dir`. */
  method LongestAgreement(paths: seq<seq<string>>, dir: seq<string>) returns (longest: seq<string>)
    ensures longest == FirstLongest(paths, dir)
  {
    longest := [];
    for i := 0 to |paths|
      invariant longest == FirstLongest(paths[..i], dir)
    {
      var next := LongestCommonPath(paths[i], dir);
      assert paths[..i + 1][..i] == paths[..i];
      if |next| > |longest| {
        longest := next;
      }
    }
    assert paths[..|paths|] == paths;
  }
}
