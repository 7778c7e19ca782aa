/**
 * `prepare` and `algorithm` of packages/core/src/fuzzysort.ts: the prepared
 * target record (updated in place by every match), the score formula, and
 * the matching method that ties the loose, strict and substring steps
 * together.
 */
module FuzzyAlgorithm {
  import opened Wrappers
  import opened FuzzyPrepare
  import opened FuzzyBeginnings
  import opened FuzzyMatch
  import Text

  /** `Number.MAX_SAFE_INTEGER`, the score a freshly prepared target carries. */
  const MAX_SAFE_INTEGER: int := 9007199254740991

  /**
   * A prepared target. The lowered text, its codes and its mask never change;
   * the word-beginning table is filled on first match, and `score`/`indexes`
   * are overwritten by every successful match.
   */
  class Prepared {
    const target: string
    const targetLower: string
    const targetLowerCodes: seq<int>
    const bigflags: set<nat>
    var nextBeginningIndexes: Option<seq<nat>>
    var score: real
    var indexes: seq<int>

    /** The lowered text, codes and mask belong to `target`. */
    ghost predicate Derived()
    {
      targetLower == LowerString(target) &&
      targetLowerCodes == Codes(targetLower) &&
      bigflags == MaskOf(targetLowerCodes)
    }

    /** A filled word-beginning table is the one for `target`. */
    ghost predicate TableOk()
      reads this
    {
      nextBeginningIndexes.Some? ==> nextBeginningIndexes.value == NextTable(target)
    }

    ghost predicate Valid()
      reads this
    {
      Derived() && TableOk()
    }

    /** `prepare`. */
    constructor (target: string)
      ensures Valid() && this.target == target
      ensures nextBeginningIndexes == None && score == MAX_SAFE_INTEGER as real && indexes == [0]
    {
      var info := PrepareLowerInfo(target);
      this.target := target;
      targetLower := info.lower;
      targetLowerCodes := info.lowerCodes;
      bigflags := info.bitflags;
      nextBeginningIndexes := None;
      score := MAX_SAFE_INTEGER as real;
      indexes := [0];
    }
  }

  // ------------------------------------------------------------ score

  /** Everything the score formula looks at. */
  datatype MatchLayout = MatchLayout(
    best: seq<int>,
    successStrict: bool,
    isSubstring: bool,
    isSubstringBeginning: bool,
    uniqueBeginnings: nat,
    searchLen: nat,
    targetLen: nat)

  /** The layouts a successful match can produce. */
  ghost predicate LayoutOk(m: MatchLayout)
  {
    |m.best| == m.searchLen >= 1 && m.searchLen <= m.targetLen &&
    Increasing(m.best) && 0 <= m.best[0]
  }

  /** Sum of the match positions that start a new group. */
  function GapSum(best: seq<int>): int
  {
    if |best| <= 1 then 0
    else GapSum(best[..|best| - 1]) + (if best[|best| - 1] - best[|best| - 2] != 1 then best[|best| - 1] else 0)
  }

  /**
   * The `extraMatchGroupCount` loop: every match not adjacent to the previous
   * one is a new group, and its position is taken off the score.
   */
  method TallyGroups(best: seq<int>) returns (score: int, extraMatchGroupCount: nat)
    requires |best| >= 1
    ensures score == -GapSum(best)
    ensures extraMatchGroupCount == GapCount(best)
  {
    score, extraMatchGroupCount := 0, 0;
    for i := 1 to |best|
      invariant score == -GapSum(best[..i])
      invariant extraMatchGroupCount == GapCount(best[..i])
    {
      assert best[..i + 1][..i] == best[..i];
      if best[i] - best[i - 1] != 1 {
        score := score - best[i];
        extraMatchGroupCount := extraMatchGroupCount + 1;
      }
    }
    assert best[..|best|] == best;
  }

  /** What the groups cost: the positions that start them, plus `12 + unmatchedDistance` per extra group. */
  function GroupPenalty(best: seq<int>): int
    requires |best| >= 1
  {
    GapSum(best) + (12 + UnmatchedDistance(best)) * GapCount(best)
  }

  /** What starting away from position 0 costs. */
  function StartPenalty(first: int): real
  {
    if first != 0 then (first * first) as real * 0.2 else 0.0
  }

  /** Loose matches are scaled by 1000; strict ones on targets with over 24 beginnings by `(n - 24) * 10`. */
  function Multiplier(successStrict: bool, uniqueBeginnings: nat): real
  {
    if !successStrict then 1000.0
    else if uniqueBeginnings > 24 then ((uniqueBeginnings - 24) * 10) as real
    else 1.0
  }

  /** The penalty part of the score, before the length penalty and any bonus. */
  function RawScore(best: seq<int>, successStrict: bool, uniqueBeginnings: nat): real
    requires |best| >= 1
  {
    ((-GroupPenalty(best)) as real - StartPenalty(best[0])) * Multiplier(successStrict, uniqueBeginnings)
  }

  lemma RawScoreUnfold(best: seq<int>, successStrict: bool, uniqueBeginnings: nat, penalised: real)
    requires |best| >= 1 && penalised == (-GroupPenalty(best)) as real - StartPenalty(best[0])
    ensures RawScore(best, successStrict, uniqueBeginnings) == penalised * Multiplier(successStrict, uniqueBeginnings)
  {
  }

  /** The two substring bonuses and the length penalty applied to a raw score. */
  function Finish(raw: real, isSubstring: bool, isSubstringBeginning: bool, bonus: real, lengthPenalty: int): real
    requires bonus > 0.0
  {
    var s3 := if isSubstring then raw / bonus else raw;
    var s4 := if isSubstringBeginning then s3 / bonus else s3;
    s4 - lengthPenalty as real
  }

  /** The substring bonus divisor `1 + searchLen * searchLen`. */
  function Bonus(m: MatchLayout): real
  {
    (1 + m.searchLen * m.searchLen) as real
  }

  /** The score `algorithm` stores, in exact arithmetic. */
  function Score(m: MatchLayout): real
    requires |m.best| >= 1
  {
    Finish(RawScore(m.best, m.successStrict, m.uniqueBeginnings), m.isSubstring, m.isSubstringBeginning,
           Bonus(m), m.targetLen - m.searchLen)
  }

  lemma {:induction false} GapSumNonNegative(best: seq<int>)
    requires |best| >= 1 && Increasing(best) && 0 <= best[0]
    ensures GapSum(best) >= 0
  {
    if |best| > 1 {
      var init := best[..|best| - 1];
      assert init[0] == best[0] && Increasing(init);
      GapSumNonNegative(init);
      assert best[0] <= best[|best| - 1];
    }
  }

  /** No penalty term is negative, so the raw score never exceeds zero. */
  lemma RawScoreNonPositive(m: MatchLayout)
    requires LayoutOk(m)
    ensures RawScore(m.best, m.successStrict, m.uniqueBeginnings) <= 0.0
  {
    GapSumNonNegative(m.best);
    GroupsWithinDistance(m.best);
    var groups := GapCount(m.best);
    var d := UnmatchedDistance(m.best);
    assert (12 + d) * groups >= 0;
    assert GroupPenalty(m.best) >= 0;
    assert m.best[0] * m.best[0] >= 0;
    assert StartPenalty(m.best[0]) >= 0.0;
    var p := (-GroupPenalty(m.best)) as real - StartPenalty(m.best[0]);
    var f := Multiplier(m.successStrict, m.uniqueBeginnings);
    assert p <= 0.0 && f > 0.0;
    assert p * f <= 0.0;
  }

  /** Dividing a non-positive value by a divisor of at least one can only raise it, up to zero. */
  lemma DivideNonPositive(x: real, d: real)
    requires x <= 0.0 && d >= 1.0
    ensures x <= x / d <= 0.0
  {
    assert x / d * d == x;
  }

  /** Every score is at most minus the number of unmatched target characters. */
  lemma ScoreAtMostLengthPenalty(m: MatchLayout)
    requires LayoutOk(m)
    ensures Score(m) <= (m.searchLen - m.targetLen) as real
  {
    RawScoreNonPositive(m);
    var s2 := RawScore(m.best, m.successStrict, m.uniqueBeginnings);
    var s3 := if m.isSubstring then s2 / Bonus(m) else s2;
    if m.isSubstring { DivideNonPositive(s2, Bonus(m)); }
    if m.isSubstringBeginning { DivideNonPositive(s3, Bonus(m)); }
  }

  /** A target equal to the query (after lowering) matched in place scores the maximum, zero. */
  lemma ExactMatchScoresZero(m: MatchLayout)
    requires LayoutOk(m) && m.targetLen == m.searchLen && IsRun(m.best) && m.best[0] == 0
    ensures Score(m) == 0.0
  {
    GroupsWithinDistance(m.best);
    GapSumZeroOnRun(m.best);
  }

  lemma {:induction false} GapSumZeroOnRun(best: seq<int>)
    requires |best| >= 1 && IsRun(best)
    ensures GapSum(best) == 0
  {
    if |best| > 1 {
      var init := best[..|best| - 1];
      assert IsRun(init) by {
        forall k | 0 <= k < |init| ensures init[k] == init[0] + k {
          assert init[k] == best[k];
        }
      }
      GapSumZeroOnRun(init);
    }
  }

  /** Being a substring (and starting on a word beginning) never lowers a score. */
  lemma SubstringBonusNeverHurts(m: MatchLayout)
    requires LayoutOk(m)
    ensures Score(m.(isSubstring := false, isSubstringBeginning := false)) <= Score(m)
    ensures Score(m.(isSubstringBeginning := false)) <= Score(m)
  {
    RawScoreNonPositive(m);
    var s2 := RawScore(m.best, m.successStrict, m.uniqueBeginnings);
    var s3 := if m.isSubstring then s2 / Bonus(m) else s2;
    if m.isSubstring { DivideNonPositive(s2, Bonus(m)); }
    if m.isSubstringBeginning { DivideNonPositive(s3, Bonus(m)); }
  }

  // ------------------------------------------------------------ algorithm

  /** An occurrence of the lowered query in the lowered target is an occurrence of its codes. */
  lemma OccurrenceOfCodes(s: string, sub: string, k: int)
    requires Text.OccursAt(s, sub, k)
    ensures Codes(s)[k..k + |sub|] == Codes(sub)
  {
    assert forall i :: 0 <= i < |sub| ==> Codes(s)[k..k + |sub|][i] == s[k + i] as int == sub[i] as int;
  }

  /** The group tally and the start penalty, the first two terms taken off the score. */
  method GroupAndStartPenalties(matchesBest: seq<int>) returns (score: real)
    requires |matchesBest| >= 1
    ensures score == (-GroupPenalty(matchesBest)) as real - StartPenalty(matchesBest[0])
  {
    var searchLen := |matchesBest|;
    var groupScore, extraMatchGroupCount := TallyGroups(matchesBest);
    var unmatchedDistance := matchesBest[searchLen - 1] - matchesBest[0] - (searchLen - 1);
    score := groupScore as real - ((12 + unmatchedDistance) * extraMatchGroupCount) as real;
    if matchesBest[0] != 0 {
      score := score - (matchesBest[0] * matchesBest[0]) as real * 0.2;
    }
  }

  /**
   * The scoring tail of `algorithm` (from the group tally on), over the
   * chosen indexes. The beginning count is walked only for strict matches.
   */
  method ComputeScore(matchesBest: seq<int>, successStrict: bool, isSubstring: bool, isSubstringBeginning: bool,
                      target: string, nextBeginningIndexes: seq<nat>, searchLen: nat, targetLen: nat)
    returns (score: real, ghost layout: MatchLayout)
    requires |matchesBest| == searchLen >= 1 && searchLen <= targetLen
    requires |target| == targetLen && nextBeginningIndexes == NextTable(target)
    ensures layout == MatchLayout(matchesBest, successStrict, isSubstring, isSubstringBeginning,
                                  if successStrict then CountBeginningsFrom(target, 0) else 0, searchLen, targetLen)
    ensures score == Score(layout)
  {
    var penalised := GroupAndStartPenalties(matchesBest);
    var raw, uniqueBeginningIndexes := ScaleByBeginnings(penalised, successStrict, target, nextBeginningIndexes);
    layout := MatchLayout(matchesBest, successStrict, isSubstring, isSubstringBeginning,
                          uniqueBeginningIndexes, searchLen, targetLen);
    RawScoreUnfold(matchesBest, successStrict, uniqueBeginningIndexes, penalised);
    score := ApplyBonuses(raw, isSubstring, isSubstringBeginning, searchLen, targetLen);
  }

  /** The loose (times 1000) or many-beginnings scaling of the penalties. */
  method ScaleByBeginnings(penalised: real, successStrict: bool, target: string, nextBeginningIndexes: seq<nat>)
    returns (score: real, uniqueBeginningIndexes: nat)
    requires |target| > 0 && nextBeginningIndexes == NextTable(target)
    ensures uniqueBeginningIndexes == if successStrict then CountBeginningsFrom(target, 0) else 0
    ensures score == penalised * Multiplier(successStrict, uniqueBeginningIndexes)
  {
    score, uniqueBeginningIndexes := penalised, 0;
    if !successStrict {
      score := score * 1000.0;
    } else {
      uniqueBeginningIndexes := CountUniqueBeginnings(target, nextBeginningIndexes);
      if uniqueBeginningIndexes > 24 {
        score := score * ((uniqueBeginningIndexes - 24) * 10) as real;
      }
    }
  }

  /** The substring bonuses, each a division by `1 + searchLen * searchLen`, then the length penalty. */
  method ApplyBonuses(raw: real, isSubstring: bool, isSubstringBeginning: bool, searchLen: nat, targetLen: nat)
    returns (score: real)
    ensures score == Finish(raw, isSubstring, isSubstringBeginning, (1 + searchLen * searchLen) as real,
                            targetLen - searchLen)
  {
    score := raw;
    if isSubstring {
      score := score / (1 + searchLen * searchLen) as real;
    }
    if isSubstringBeginning {
      score := score / (1 + searchLen * searchLen) as real;
    }
    score := score - (targetLen - searchLen) as real;
  }

  /**
   * Everything `algorithm` does after a successful loose scan, on values:
   * the strict scan from the last loose index, the substring test from the
   * first loose index, the choice of indexes, and the score.
   */
  method ScoreMatch(searchLower: string, searchLowerCodes: seq<int>, target: string, targetLower: string,
                    targetLowerCodes: seq<int>, nextBeginningIndexes: seq<nat>, matchesSimple: seq<int>)
    returns (matchesBest: seq<int>, score: real, ghost layout: MatchLayout)
    requires searchLowerCodes == Codes(searchLower) && targetLowerCodes == Codes(targetLower)
    requires |targetLower| == |target| && nextBeginningIndexes == NextTable(target)
    requires |searchLowerCodes| > 0 && GreedyEmbed(searchLowerCodes, targetLowerCodes, 0) == Some(matchesSimple)
    ensures Embedding(matchesBest, searchLowerCodes, targetLowerCodes)
    ensures
      var substringIndex := Text.IndexOf(targetLower, searchLower, matchesSimple[0]);
      && LayoutOk(layout)
      && layout == MatchLayout(matchesBest, layout.successStrict, substringIndex != -1,
                               substringIndex > 0 && IsBeginning(target, substringIndex),
                               if layout.successStrict then CountBeginningsFrom(target, 0) else 0,
                               |searchLowerCodes|, |targetLowerCodes|)
      && score == Score(layout)
      && (layout.successStrict ==> StrictPlaced(matchesBest, target, matchesSimple[|matchesSimple| - 1]))
      && (!layout.successStrict && substringIndex != -1 ==> IsRun(matchesBest) && matchesBest[0] == substringIndex)
      && (!layout.successStrict && substringIndex == -1 ==> matchesBest == matchesSimple)
  {
    var q, t := searchLowerCodes, targetLowerCodes;
    GreedySound(q, t, 0);
    var targetI := matchesSimple[|q| - 1];
    var successStrict, matchesStrict := StrictScan(q, t, target, nextBeginningIndexes, targetI);

    var substringIndex := Text.IndexOf(targetLower, searchLower, matchesSimple[0]);
    var isSubstring := substringIndex != -1;
    if successStrict {
      matchesBest := matchesStrict;
    } else {
      matchesBest := LooseIndexes(searchLower, q, targetLower, t, matchesSimple, substringIndex);
    }
    var isSubstringBeginning := false;
    if isSubstring {
      isSubstringBeginning := SubstringBeginsWord(nextBeginningIndexes, substringIndex);
      SubstringBeginsWordIff(target, substringIndex);
    }
    EmbeddingFits(matchesBest, q, t);
    score, layout := ComputeScore(matchesBest, successStrict, isSubstring, isSubstringBeginning,
                                  target, nextBeginningIndexes, |q|, |t|);
  }

  /**
   * The indexes kept when the strict scan fails: the run at the substring
   * occurrence when there is one, the loose indexes otherwise.
   */
  method LooseIndexes(searchLower: string, q: seq<int>, targetLower: string, t: seq<int>,
                      matchesSimple: seq<int>, substringIndex: int)
    returns (matchesBest: seq<int>)
    requires q == Codes(searchLower) && |q| > 0 && t == Codes(targetLower) && Embedding(matchesSimple, q, t)
    requires substringIndex == -1 || Text.OccursAt(targetLower, searchLower, substringIndex)
    ensures Embedding(matchesBest, q, t)
    ensures substringIndex != -1 ==> IsRun(matchesBest) && matchesBest[0] == substringIndex
    ensures substringIndex == -1 ==> matchesBest == matchesSimple
  {
    matchesBest := matchesSimple;
    if substringIndex != -1 {
      matchesBest := SubstringRewrite(matchesSimple, substringIndex);
      OccurrenceOfCodes(targetLower, searchLower, substringIndex);
      RunIsEmbedding(q, t, substringIndex, matchesBest);
    }
  }

  /** `prepared.indexes[i] = best[i]` for every `i`, then `indexes.length = |best|`. */
  method StoreIndexes(prepared: Prepared, best: seq<int>)
    modifies prepared
    ensures prepared.indexes == best
    ensures prepared.nextBeginningIndexes == old(prepared.nextBeginningIndexes) && prepared.score == old(prepared.score)
  {
    for i := 0 to |best|
      invariant |prepared.indexes| >= i && prepared.indexes[..i] == best[..i]
      invariant prepared.nextBeginningIndexes == old(prepared.nextBeginningIndexes) && prepared.score == old(prepared.score)
    {
      if i < |prepared.indexes| {
        prepared.indexes := prepared.indexes[i := best[i]];
      } else {
        prepared.indexes := prepared.indexes + [best[i]];
      }
      assert prepared.indexes[..i + 1] == best[..i + 1] by {
        assert prepared.indexes[..i + 1] == prepared.indexes[..i] + [best[i]];
      }
    }
    prepared.indexes := prepared.indexes[..|best|];
    assert best[..|best|] == best;
  }

  /**
   * `algorithm`: the loose scan alone decides whether `preparedSearch`
   * matches `prepared`; on a match the word-beginning table is filled if
   * needed, the indexes and score are chosen by `ScoreMatch` and stored in
   * `prepared`, which is returned. The ghost `layout` is what the score was
   * computed from.
   */
  method Algorithm(preparedSearch: PreparedSearch, prepared: Prepared) returns (result: Prepared?, ghost layout: MatchLayout)
    requires prepared.Valid() && preparedSearch.lowerCodes == Codes(preparedSearch.lower)
    modifies prepared
    ensures prepared.Valid()
    ensures result == null || result == prepared
    ensures result != null <==>
              |preparedSearch.lowerCodes| > 0 && GreedyEmbed(preparedSearch.lowerCodes, prepared.targetLowerCodes, 0).Some?
    ensures result != null <==>
              |preparedSearch.lowerCodes| > 0 && IsSubsequence(preparedSearch.lowerCodes, prepared.targetLowerCodes)
    ensures result == null ==> unchanged(prepared)
    ensures result != null ==>
              var q, t := preparedSearch.lowerCodes, prepared.targetLowerCodes;
              var loose := GreedyEmbed(q, t, 0).value;
              var substringIndex := Text.IndexOf(prepared.targetLower, preparedSearch.lower, loose[0]);
              && prepared.nextBeginningIndexes == Some(NextTable(prepared.target))
              && Embedding(prepared.indexes, q, t)
              && LayoutOk(layout)
              && layout == MatchLayout(prepared.indexes, layout.successStrict, substringIndex != -1,
                                       substringIndex > 0 && IsBeginning(prepared.target, substringIndex),
                                       if layout.successStrict then CountBeginningsFrom(prepared.target, 0) else 0,
                                       |q|, |t|)
              && prepared.score == Score(layout)
              && (layout.successStrict ==> StrictPlaced(prepared.indexes, prepared.target, loose[|q| - 1]))
              && (!layout.successStrict && substringIndex != -1 ==> IsRun(prepared.indexes) && prepared.indexes[0] == substringIndex)
              && (!layout.successStrict && substringIndex == -1 ==> prepared.indexes == loose)
  {
    layout := MatchLayout([], false, false, false, 0, 0, 0);
    var found, matchesSimple, targetI := LooseScan(preparedSearch.lowerCodes, prepared.targetLowerCodes);
    GreedyIffSubsequence(preparedSearch.lowerCodes, prepared.targetLowerCodes);
    if !found {
      return null, layout;
    }

    var nextBeginningIndexes: seq<nat>;
    if prepared.nextBeginningIndexes.None? {
      nextBeginningIndexes := PrepareNextBeginningIndexes(prepared.target);
      prepared.nextBeginningIndexes := Some(nextBeginningIndexes);
    } else {
      nextBeginningIndexes := prepared.nextBeginningIndexes.value;
    }

    var matchesBest, score;
    matchesBest, score, layout := ScoreMatch(preparedSearch.lower, preparedSearch.lowerCodes, prepared.target,
                                             prepared.targetLower, prepared.targetLowerCodes,
                                             nextBeginningIndexes, matchesSimple);
    prepared.score := score;
    StoreIndexes(prepared, matchesBest);
    result := prepared;
  }
}
