/**
 * The JavaScript string operations the two components rely on
 * (`indexOf`, `lastIndexOf`, `split("/")`, `join("/")`, `localeCompare`),
 * stated over `string` = `seq<char>`, one character per Unicode scalar value.
 */
module Text {

  /** `sub` occurs in `s` starting at position `k`. */
  ghost predicate OccursAt(s: string, sub: string, k: int)
  {
    0 <= k && k + |sub| <= |s| && s[k..k + |sub|] == sub
  }

  /**
   * `s.indexOf(sub, from)` for a non-negative `from`: the first occurrence at
   * or after `from`, or -1; an empty `sub` is found at `from` clamped to `|s|`.
   */
  function IndexOf(s: string, sub: string, from: nat): (r: int)
    ensures r == -1 <==> sub != [] && forall k :: from <= k ==> !OccursAt(s, sub, k)
    ensures r != -1 ==> OccursAt(s, sub, r) && (from <= r || (sub == [] && r == |s|))
    ensures r != -1 ==> forall k :: from <= k < r ==> !OccursAt(s, sub, k)
    decreases |s| - from
  {
    if from + |sub| > |s| then
      if sub == [] then |s| else -1
    else if s[from..from + |sub|] == sub then assert OccursAt(s, sub, from); from
    else IndexOf(s, sub, from + 1)
  }

  /** `s.lastIndexOf(sub)`: the last occurrence, or -1. */
  function LastIndexOf(s: string, sub: string): (r: int)
    ensures r == -1 <==> forall k :: !OccursAt(s, sub, k)
    ensures r != -1 ==> OccursAt(s, sub, r) && forall k :: r < k ==> !OccursAt(s, sub, k)
  {
    LastIndexOfAtOrBefore(s, sub, |s| - |sub|)
  }

  function LastIndexOfAtOrBefore(s: string, sub: string, k: int): (r: int)
    requires k <= |s| - |sub|
    ensures r == -1 <==> forall m :: m <= k ==> !OccursAt(s, sub, m)
    ensures r != -1 ==> OccursAt(s, sub, r) && r <= k && forall m :: r < m <= k ==> !OccursAt(s, sub, m)
    decreases k + 1
  {
    if k < 0 then -1
    else if s[k..k + |sub|] == sub then assert OccursAt(s, sub, k); k
    else LastIndexOfAtOrBefore(s, sub, k - 1)
  }

  /** A string `s` ends with `suffix`: `lastIndexOf` finds it at `|s| - |suffix|`. */
  lemma LastIndexOfSuffix(s: string, suffix: string)
    requires |suffix| <= |s| && s[|s| - |suffix|..] == suffix
    ensures LastIndexOf(s, suffix) == |s| - |suffix|
  {
    assert OccursAt(s, suffix, |s| - |suffix|);
  }

  // ---------------------------------------------------------------- split / join

  /** `s.split("/")`: never empty; "" splits into [""]. */
  function Split(s: string): (r: seq<string>)
    ensures |r| >= 1
  {
    if s == [] then [[]]
    else
      var rest := Split(s[1..]);
      if s[0] == '/' then [[]] + rest
      else [[s[0]] + rest[0]] + rest[1..]
  }

  /** `segs.join("/")`. */
  function Join(segs: seq<string>): string
  {
    if |segs| == 0 then []
    else if |segs| == 1 then segs[0]
    else segs[0] + "/" + Join(segs[1..])
  }

  ghost predicate NoSlash(seg: string)
  {
    forall i :: 0 <= i < |seg| ==> seg[i] != '/'
  }

  /** Every piece produced by `split("/")` is free of "/". */
  lemma {:induction false} SplitSegmentsHaveNoSlash(s: string)
    ensures forall k :: 0 <= k < |Split(s)| ==> NoSlash(Split(s)[k])
  {
    if s != [] {
      SplitSegmentsHaveNoSlash(s[1..]);
    }
  }

  /** Joining the pieces with "/" gives back the string. */
  lemma {:induction false} JoinSplit(s: string)
    ensures Join(Split(s)) == s
  {
    if s != [] {
      var rest := Split(s[1..]);
      JoinSplit(s[1..]);
      if s[0] == '/' {
        assert Split(s) == [[]] + rest;
        assert Join(Split(s)) == [] + "/" + Join(rest);
      } else {
        var head := [s[0]] + rest[0];
        if |rest| == 1 {
          assert Join(Split(s)) == head;
        } else {
          assert Split(s)[1..] == rest[1..];
          assert Join(rest) == rest[0] + "/" + Join(rest[1..]);
          assert Join(Split(s)) == head + "/" + Join(rest[1..]);
        }
      }
    }
  }

  /** The number of pieces is one more than the number of "/" characters. */
  lemma {:induction false} SplitSingleIffNoSlash(s: string)
    ensures |Split(s)| == 1 <==> NoSlash(s)
  {
    if s != [] {
      SplitSingleIffNoSlash(s[1..]);
      if s[0] != '/' && NoSlash(s[1..]) {
        assert NoSlash(s) by {
          forall i | 0 <= i < |s| ensures s[i] != '/' {
            if i > 0 { assert s[i] == s[1..][i - 1]; }
          }
        }
      }
      if NoSlash(s) {
        assert NoSlash(s[1..]) by {
          forall i | 0 <= i < |s[1..]| ensures s[1..][i] != '/' {
            assert s[1..][i] == s[i + 1];
          }
        }
      }
    }
  }

  /** Splitting off the last piece: `join(segs) == join(init) + "/" + last`. */
  lemma {:induction false} JoinSnoc(segs: seq<string>)
    requires |segs| >= 2
    ensures Join(segs) == Join(segs[..|segs| - 1]) + "/" + segs[|segs| - 1]
  {
    if |segs| > 2 {
      JoinSnoc(segs[1..]);
      assert segs[1..][..|segs[1..]| - 1] == segs[..|segs| - 1][1..];
      assert segs[1..][|segs[1..]| - 1] == segs[|segs| - 1];
    } else {
      assert segs[..1] == [segs[0]];
      assert segs[1..] == [segs[1]];
    }
  }

  // ---------------------------------------------------------------- ordering

  /** Lexicographic order on code points (the model of `localeCompare`). */
  predicate LexLeq(a: string, b: string)
    decreases |a|
  {
    if a == [] then true
    else if b == [] then false
    else if a[0] != b[0] then a[0] < b[0]
    else LexLeq(a[1..], b[1..])
  }

  /** `a.localeCompare(b)`: negative, zero or positive. */
  function LocaleCompare(a: string, b: string): (r: int)
    ensures r == 0 <==> a == b
    ensures r < 0 <==> LexLeq(a, b) && a != b
    ensures r > 0 <==> LexLeq(b, a) && a != b
  {
    LexAntisymmetric(a, b);
    LexTotal(a, b);
    if a == b then 0 else if LexLeq(a, b) then -1 else 1
  }

  lemma {:induction false} LexTotal(a: string, b: string)
    ensures LexLeq(a, b) || LexLeq(b, a)
    decreases |a|
  {
    if a != [] && b != [] && a[0] == b[0] {
      LexTotal(a[1..], b[1..]);
    }
  }

  lemma {:induction false} LexAntisymmetric(a: string, b: string)
    ensures LexLeq(a, b) && LexLeq(b, a) ==> a == b
    decreases |a|
  {
    if a != [] && b != [] && a[0] == b[0] {
      LexAntisymmetric(a[1..], b[1..]);
      if LexLeq(a, b) && LexLeq(b, a) {
        assert a == [a[0]] + a[1..] && b == [b[0]] + b[1..];
      }
    }
  }

  lemma {:induction false} LexTransitive(a: string, b: string, c: string)
    ensures LexLeq(a, b) && LexLeq(b, c) ==> LexLeq(a, c)
    decreases |a|
  {
    if a != [] && b != [] && c != [] && a[0] == b[0] && b[0] == c[0] {
      LexTransitive(a[1..], b[1..], c[1..]);
    }
  }
}
