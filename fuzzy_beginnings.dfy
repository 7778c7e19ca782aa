/**
 * Word beginnings of a target (packages/core/src/fuzzysort.ts,
 * `prepareBeginningIndexes`, `prepareNextBeginningIndexes`): the positions the
 * strict matcher may jump to. They are computed on the original target, not on
 * its lowered form, so case changes count.
 */
module FuzzyBeginnings {
  import opened Wrappers

  predicate IsUpper(c: char)
  {
    'A' <= c <= 'Z'
  }

  predicate IsAlnum(c: char)
  {
    IsUpper(c) || ('a' <= c <= 'z') || ('0' <= c <= '9')
  }

  /**
   * Position `i` begins a word: it is the first position, it is not
   * alphanumeric, it follows a non-alphanumeric character, or it is an upper-case
   * letter after a character that is not upper-case.
   */
  predicate IsBeginning(s: string, i: nat)
    requires i < |s|
  {
    i == 0 || !IsAlnum(s[i]) || !IsAlnum(s[i - 1]) || (IsUpper(s[i]) && !IsUpper(s[i - 1]))
  }

  /** The first beginning at or after `j`, or `|s|` when there is none. */
  function FirstBeginningFrom(s: string, j: nat): (r: nat)
    requires j <= |s|
    ensures j <= r <= |s|
    ensures r < |s| ==> IsBeginning(s, r)
    ensures forall k :: j <= k < r ==> !IsBeginning(s, k)
    decreases |s| - j
  {
    if j == |s| then |s|
    else if IsBeginning(s, j) then j
    else FirstBeginningFrom(s, j + 1)
  }

  /** The table `next[i]`: the first beginning strictly after `i`, or `|s|`. */
  function NextTable(s: string): seq<nat>
  {
    seq(|s|, i requires 0 <= i < |s| => FirstBeginningFrom(s, i + 1))
  }

  /** `next[i]` jumps strictly forward and stays within `[0, |s|]`. */
  lemma NextTableBounds(s: string, i: nat)
    requires i < |s|
    ensures |NextTable(s)| == |s|
    ensures i < NextTable(s)[i] <= |s|
    ensures NextTable(s)[i] < |s| ==> IsBeginning(s, NextTable(s)[i])
  {
  }

  /** Strictly increasing and within `[0, n)`. */
  ghost predicate IncreasingBelow(b: seq<nat>, n: nat)
  {
    (forall k :: 0 <= k < |b| ==> b[k] < n) &&
    (forall k, m :: 0 <= k < m < |b| ==> b[k] < b[m])
  }

  /** `b` lists exactly the beginnings of `s`, in increasing order. */
  ghost predicate ListsBeginnings(s: string, b: seq<nat>)
  {
    IncreasingBelow(b, |s|) &&
    forall i :: 0 <= i < |s| ==> (IsBeginning(s, i) <==> i in b)
  }

  /** `prepareBeginningIndexes`: one pass, remembering whether the previous character was upper-case or alphanumeric. */
  method PrepareBeginningIndexes(target: string) returns (b: seq<nat>)
    ensures ListsBeginnings(target, b)
    ensures |target| > 0 ==> |b| > 0 && b[0] == 0
  {
    b := [];
    var wasUpper, wasAlphanum := false, false;
    for i := 0 to |target|
      invariant IncreasingBelow(b, i)
      invariant forall j :: 0 <= j < i ==> (IsBeginning(target, j) <==> j in b)
      invariant i > 0 ==> wasUpper == IsUpper(target[i - 1]) && wasAlphanum == IsAlnum(target[i - 1])
      invariant i == 0 ==> !wasUpper && !wasAlphanum
      invariant i > 0 ==> |b| > 0 && b[0] == 0
    {
      var c := target[i];
      var isUpper := 'A' <= c <= 'Z';
      var isAlphanum := isUpper || ('a' <= c <= 'z') || ('0' <= c <= '9');
      var isBeginning := (isUpper && !wasUpper) || !wasAlphanum || !isAlphanum;
      wasUpper, wasAlphanum := isUpper, isAlphanum;
      if isBeginning {
        b := b + [i];
      }
    }
  }

  /** With the full list of beginnings at hand, `r` is the first beginning from `j` when nothing listed lies in `[j, r)`. */
  lemma FirstBeginningByList(s: string, b: seq<nat>, j: nat, r: nat)
    requires ListsBeginnings(s, b)
    requires j <= r <= |s|
    requires r < |s| ==> r in b
    requires forall m :: 0 <= m < |b| ==> b[m] < j || r <= b[m]
    ensures FirstBeginningFrom(s, j) == r
  {
  }

  /**
   * `prepareNextBeginningIndexes`: walk the beginnings list once, keeping the
   * current candidate `lastIsBeginning` (absent once the list is exhausted).
   */
  method PrepareNextBeginningIndexes(target: string) returns (next: seq<nat>)
    ensures next == NextTable(target)
  {
    var b := PrepareBeginningIndexes(target);
    next := [];
    var k := 0;
    var lastIsBeginning: Option<nat> := if 0 < |b| then Some(b[0]) else None;
    for i := 0 to |target|
      invariant |next| == i
      invariant forall j :: 0 <= j < i ==> next[j] == FirstBeginningFrom(target, j + 1)
      invariant lastIsBeginning == if k < |b| then Some(b[k]) else None
      invariant k < |b| ==> b[k] >= i
      invariant forall m :: 0 <= m < k && m < |b| ==> b[m] < i
    {
      if lastIsBeginning.Some? && lastIsBeginning.value > i {
        FirstBeginningByList(target, b, i + 1, b[k]);
        next := next + [lastIsBeginning.value];
      } else {
        k := k + 1;
        lastIsBeginning := if k < |b| then Some(b[k]) else None;
        var n := if lastIsBeginning.None? || lastIsBeginning.value == 0 then |target| else lastIsBeginning.value;
        FirstBeginningByList(target, b, i + 1, n);
        next := next + [n];
      }
    }
  }

  /** The number of beginnings in `[j, |s|)`. */
  function CountBeginningsFrom(s: string, j: nat): nat
    requires j <= |s|
    decreases |s| - j
  {
    if j == |s| then 0 else (if IsBeginning(s, j) then 1 else 0) + CountBeginningsFrom(s, j + 1)
  }

  /** Skipping non-beginnings does not change the count. */
  lemma {:induction false} CountSkipsToFirstBeginning(s: string, j: nat)
    requires j <= |s|
    ensures CountBeginningsFrom(s, j) == CountBeginningsFrom(s, FirstBeginningFrom(s, j))
    decreases |s| - j
  {
    if j < |s| && !IsBeginning(s, j) {
      CountSkipsToFirstBeginning(s, j + 1);
    }
  }

  /**
   * The walk `i = next[0]; i < len; i = next[i]` of the scoring step: it visits
   * every beginning once, so it counts all of them (position 0 included).
   */
  method CountUniqueBeginnings(target: string, next: seq<nat>) returns (count: nat)
    requires |target| > 0 && next == NextTable(target)
    ensures count == CountBeginningsFrom(target, 0)
  {
    count := 1;
    var i := next[0];
    CountSkipsToFirstBeginning(target, 1);
    while i < |target|
      invariant 0 < i <= |target|
      invariant i < |target| ==> IsBeginning(target, i)
      invariant count + CountBeginningsFrom(target, i) == CountBeginningsFrom(target, 0)
      decreases |target| - i
    {
      count := count + 1;
      CountSkipsToFirstBeginning(target, i + 1);
      i := next[i];
    }
  }
}
