# Fuzzy file tree — a Dafny model

This project models the core of a file-tree component. The component takes a
flat list of "/"-separated file paths and shows them as a directory tree.
When the user types a query, the tree keeps only the paths that match it
fuzzily, and it highlights the matched characters. The model covers three
source files:

- `packages/core/src/fuzzysort.ts`, a fuzzy matcher (fuzzysort 2.0.3). It
  prepares the query and each target by lowering them and computing a
  32-bit character-class mask. A greedy scan decides whether the query is a
  subsequence of the target. A strict re-scan then prefers word beginnings
  and backtracks at most 200 times. Next come a substring test and a score
  formula. The results go into a priority queue that keeps the `limit`
  best, and the queue is drained into a best-first array. Two module-level
  caches hold prepared targets and queries shorter than 1000 characters.
- `packages/core/src/tree.ts`, the tree builder (`deriveTree`). It filters
  the paths through the matcher, sorts them by segment count and makes one
  entry per file. Each entry's directory chain is collapsed into one node,
  named after the segments past the longest agreement with already known
  directories. Then it creates a node per entry, with its depth, its
  `expanded` flag and its files sorted by descending name. Finally it links
  each node into its parent's `directories`.
- `src/tree.ts`, the earlier builder. It does the same without highlights,
  depths or `expanded` flags, and it sorts the caller's array in place.

The modules follow the source. `Text` holds `indexOf`, `lastIndexOf`,
`split`, `join` and `localeCompare`. `PathHelpers` holds `getPath`,
`getFilename` and `longestCommonPath`, along with the first-longest
max-finding loops. `Sorting` holds `Array.prototype.sort` with the
comparators of both builders. `DirArena` holds the directory nodes, the
insertion-ordered `dirmap` and the final linking loop.

The matcher is split along its source steps:

- `FuzzyPrepare`: query and target preparation;
- `FuzzyBeginnings`: word-beginning tables;
- `FuzzyMatch`: the loose and strict scans and the substring test;
- `FuzzyAlgorithm`: the prepared record, the score and `algorithm`;
- `FuzzySort`: the caches, the queue and `fuzzysort`.

The core builder is `CoreTree` (entries and nodes) plus `CoreDerive` (filter
and end-to-end `deriveTree`). The earlier builder is `LegacyTree`.

The source's objects appear in the model as follows:

- The prepared target record is a class whose `score`, `indexes` and
  `nextBeginningIndexes` are updated in place by `algorithm`.
- The two caches are a class holding two maps.
- The result queue is a class over a sequence.
- The in-place loops are methods with loop invariants.
- Each method is proved against a specification function, and lemmas state
  what the source promises about that function.
- Directory node objects are slots of a sequence, with `parent` a position.
  The nested tree the root stands for is read off that arena once it is
  linked.

## Model

| member | source | states |
|---|---|---|
| Text.IndexOf | packages/core/src/fuzzysort.ts:296-299 | -1 exactly when a non-empty query occurs nowhere at or after `from`; otherwise an occurrence at or after `from`, with no earlier one at or after `from` |
| Text.LastIndexOf | packages/core/src/tree.ts:112 | -1 exactly when the piece occurs nowhere; otherwise an occurrence with no later one |
| Text.LastIndexOfAtOrBefore | packages/core/src/tree.ts:112 | -1 exactly when nothing occurs at or before `k`; otherwise the last occurrence at or before `k` |
| Text.LastIndexOfSuffix | packages/core/src/tree.ts:129-130 | `lastIndexOf` finds a suffix of the path (the file name) at the path's length minus the suffix's |
| Text.Split | packages/core/src/tree.ts:147 | splitting on "/" always yields at least one segment |
| Text.SplitSegmentsHaveNoSlash | packages/core/src/tree.ts:147 | no segment of a split path contains "/" |
| Text.JoinSplit | packages/core/src/tree.ts:87 | joining the split segments with "/" gives back the path, so a collapsed entry's file keeps the file's own path |
| Text.SplitSingleIffNoSlash | packages/core/src/tree.ts:96-99 | a path splits into a single segment exactly when it contains no "/" |
| Text.JoinSnoc | packages/core/src/tree.ts:98 | joining segments is joining all but the last, then "/" and the last |
| Text.LocaleCompare | packages/core/src/tree.ts:249 | zero exactly on equal names, negative exactly when the first comes strictly before in code-point lexicographic order, positive exactly when it comes after |
| Text.LexTotal | packages/core/src/tree.ts:248-250 | any two names are ordered one way or the other |
| Text.LexAntisymmetric | packages/core/src/tree.ts:248-250 | two names each ordered before the other are equal |
| Text.LexTransitive | packages/core/src/tree.ts:248-250 | the name order is transitive |
| PathHelpers.SegmentCount | packages/core/src/tree.ts:172 | a path has at least one "/"-segment |
| PathHelpers.PathFilenameRejoin | packages/core/src/tree.ts:96-104 | without "/", the directory is "" and the file name the whole path; otherwise directory + "/" + file name is the path; the file name never contains "/" |
| PathHelpers.LongestCommonPath | packages/core/src/tree.ts:39-50 | the loop returns the agreement `CommonPath`, stopping at the first missing or empty segment of either path |
| PathHelpers.CommonPathFromTaken | packages/core/src/tree.ts:39-50 | the agreement from position `j` consists of the segments at strictly increasing positions `>= j` where both paths hold the same segment |
| PathHelpers.CommonPathIsCommonSubsequence | packages/core/src/tree.ts:39-50 | the agreement is taken from positions where the two paths agree, and it is no longer than either path |
| PathHelpers.CommonPathFromSymmetric | packages/core/src/tree.ts:39-50 | the agreement from any position does not depend on the argument order |
| PathHelpers.CommonPathSymmetric | packages/core/src/tree.ts:39-50 | `longestCommonPath(a, b) == longestCommonPath(b, a)`, so `collapse` and `makeEntry` calling it in opposite orders agree |
| PathHelpers.CommonPathFromOfPrefix | packages/core/src/tree.ts:39-50 | from position `j`, a path without empty segments that is a prefix of another agrees with it on all its remaining segments |
| PathHelpers.CommonPathOfPrefix | packages/core/src/tree.ts:39-50 | a path without empty segments agrees entirely with every path it is a prefix of |
| PathHelpers.FirstLongestIsFirstMaximal | packages/core/src/tree.ts:149-155 | the kept agreement is at least as long as every agreement, and it is empty or the first agreement of its length |
| PathHelpers.LongestAgreement | packages/core/src/tree.ts:60-66 | the max-finding loop (replace only when strictly longer) returns `FirstLongest` |
| Sorting.InsertionSort | src/tree.ts:131 | sorts the array in place: the result is sorted by the comparator's order and is a permutation of the input |
| Sorting.Sink | src/tree.ts:131 | one insertion step: the prefix one longer is sorted, and the array stays a permutation |
| Sorting.Swap | src/tree.ts:131 | exchanges two neighbours and nothing else; the multiset is kept |
| Sorting.SinkStep | src/tree.ts:131 | a swap of the sinking element keeps both sorted sides and their mutual order |
| Sorting.SinkDone | src/tree.ts:131 | when the sinking element has stopped, the prefix is sorted |
| Sorting.SortSeq | packages/core/src/tree.ts:181-186 | sorting a fresh copy yields a sorted permutation of the input |
| DirArena.GetDepth | packages/core/src/tree.ts:216-225 | counts the `parent` links above a node: 0 for a node without a parent, one more than its parent's count otherwise |
| DirArena.ParentsEarlierAppend | packages/core/src/tree.ts:232 | creating a node whose parent exists keeps every parent created before its child |
| DirArena.HopsAppend | packages/core/src/tree.ts:231-232 | creating a node never changes the depth of an existing node |
| DirArena.DirmapKeys | packages/core/src/tree.ts:232 | every key `dirmap.set` was given is in the map |
| DirArena.KeyOrderShape | packages/core/src/tree.ts:255 | the insertion order lists exactly the keys of the map, each once |
| DirArena.DirmapValues | packages/core/src/tree.ts:232 | a key maps to the node created by one of its own `set` calls |
| DirArena.NodeOrder | packages/core/src/tree.ts:255 | `dirmap.values()` has one node per distinct key |
| DirArena.Values | packages/core/src/tree.ts:255 | iterating the map in key-insertion order yields `NodeOrder` |
| DirArena.NodeOrderBounds | packages/core/src/tree.ts:255 | every value is a created node and never the root |
| DirArena.NodeOrderDistinct | packages/core/src/tree.ts:255 | no node is listed twice |
| DirArena.NodeOrderListed | packages/core/src/tree.ts:232 | a created node is listed exactly when no later `set` overwrote its key |
| DirArena.NodeListedAt | packages/core/src/tree.ts:232 | the same statement for a single node |
| DirArena.ChildrenOfMembers | packages/core/src/tree.ts:255-258 | the nodes pushed into `p`'s `directories` are listed nodes whose parent is `p` |
| DirArena.LinkedStart | packages/core/src/tree.ts:255 | before the last loop, nothing has been linked |
| DirArena.LinkedParent | packages/core/src/tree.ts:256 | a node not yet handled still has its own parent |
| DirArena.LinkStep | packages/core/src/tree.ts:256-257 | handling a node appends it to its parent's `directories` and clears its `parent`, and changes no other node |
| DirArena.LinkChildren | packages/core/src/tree.ts:255-258 | throws (None) exactly when a listed node has no parent; otherwise the arena is `Linked`: each node is its old record with `parent` cleared if listed and its listed children appended, in list order |
| DirArena.LinkedChildrenAfter | packages/core/src/tree.ts:255-258 | linking appends to each node only nodes created after it, so the linked arena still reads as a tree from the root |
| DirArena.LinkOne | packages/core/src/tree.ts:256-257 | one iteration fails exactly when the node has no parent; otherwise the prefix handled grows by one |
| DirArena.LinkedAll | packages/core/src/tree.ts:255-258 | after the loop the arena is exactly `Linked`, every child created after its parent |
| DirArena.MaterializeAllBelow | packages/core/src/tree.ts:260 | a property of every created node holds of every node in the tree below the root |
| FuzzyPrepare.CodeBit | packages/core/src/fuzzysort.ts:156-164 | letters a–z set bits 0–25, digits bit 26, other ASCII bit 30, anything above 127 bit 31; bits 27–29 never |
| FuzzyPrepare.MaskBitIff | packages/core/src/fuzzysort.ts:153-166 | a bit is in the mask exactly when some code of the string sets it |
| FuzzyPrepare.MaskBitsInRange | packages/core/src/fuzzysort.ts:156-165 | a mask only ever holds bits 0–26, 30 and 31 |
| FuzzyPrepare.MaskSubset | packages/core/src/fuzzysort.ts:53-55 | when every query code occurs in the target, the query mask is contained in the target mask |
| FuzzyPrepare.CodesSnoc | packages/core/src/fuzzysort.ts:154 | the codes of a longer prefix extend by the next character's code |
| FuzzyPrepare.MaskSnoc | packages/core/src/fuzzysort.ts:165 | one more code adds exactly its bit |
| FuzzyPrepare.PrepareLowerInfo | packages/core/src/fuzzysort.ts:147-173 | the lowered string, its character codes, and the mask of those codes |
| FuzzyPrepare.TrimStart | packages/core/src/fuzzysort.ts:114 | a suffix of the input that does not start with white space, and everything cut off is white space |
| FuzzyPrepare.TrimEnd | packages/core/src/fuzzysort.ts:114 | a prefix of the input that does not end with white space, and everything cut off is white space |
| FuzzyPrepare.Trim | packages/core/src/fuzzysort.ts:114 | a slice of the input that neither starts nor ends with white space, with only white space cut off on either side |
| FuzzyPrepare.PrepareSearch | packages/core/src/fuzzysort.ts:112-122 | the trimmed, lowered query with its codes and mask |
| FuzzyBeginnings.FirstBeginningFrom | packages/core/src/fuzzysort.ts:196-211 | the first word beginning at or after `j`, or the length when there is none |
| FuzzyBeginnings.NextTableBounds | packages/core/src/fuzzysort.ts:196-211 | `next[i]` lies strictly after `i`, within the length, and on a word beginning unless it equals the length |
| FuzzyBeginnings.PrepareBeginningIndexes | packages/core/src/fuzzysort.ts:175-194 | lists exactly the word beginnings, in increasing order, starting with 0 on a non-empty target |
| FuzzyBeginnings.FirstBeginningByList | packages/core/src/fuzzysort.ts:203-207 | a listed beginning with no listed beginning before it from `j` on is the first beginning from `j` |
| FuzzyBeginnings.PrepareNextBeginningIndexes | packages/core/src/fuzzysort.ts:196-211 | entry `i` is the first word beginning strictly after `i`, or the length |
| FuzzyBeginnings.CountSkipsToFirstBeginning | packages/core/src/fuzzysort.ts:345-350 | skipping to the next beginning does not change how many beginnings remain |
| FuzzyBeginnings.CountUniqueBeginnings | packages/core/src/fuzzysort.ts:344-350 | the `next`-table walk from position 0 counts every word beginning of the target once |
| FuzzyMatch.IncreasingSpread | packages/core/src/fuzzysort.ts:240 | in strictly increasing indexes, entry `k` is at least `k` past the first |
| FuzzyMatch.EmbeddingFits | packages/core/src/fuzzysort.ts:237-249 | a query only embeds in a target at least as long |
| FuzzyMatch.GreedyEmbed | packages/core/src/fuzzysort.ts:237-249 | a found match has one index per query code, none before the starting position |
| FuzzyMatch.GreedySound | packages/core/src/fuzzysort.ts:237-249 | what the greedy scan finds is an increasing embedding of the query in the target |
| FuzzyMatch.GreedyComplete | packages/core/src/fuzzysort.ts:237-249 | whenever any embedding exists, the greedy scan succeeds, and each index is at or before that embedding's |
| FuzzyMatch.GreedyIffSubsequence | packages/core/src/fuzzysort.ts:237-249 | the greedy scan succeeds exactly when the lowered query is a subsequence of the lowered target |
| FuzzyMatch.LooseScan | packages/core/src/fuzzysort.ts:226-249 | matches exactly when the query is non-empty and the greedy embedding exists, returns that embedding, and leaves `targetI` on its last index |
| FuzzyMatch.StrictPush | packages/core/src/fuzzysort.ts:280-288 | a strict match extends the scan state, and the last one completes an embedding placed on anchors or beginnings |
| FuzzyMatch.StrictPop | packages/core/src/fuzzysort.ts:276-278 | a backtrack drops the last match and resumes at the next beginning after it, keeping the scan state |
| FuzzyMatch.StrictSkip | packages/core/src/fuzzysort.ts:290 | a mismatch moves strictly forward to the next beginning, keeping the scan state |
| FuzzyMatch.StrictScan | packages/core/src/fuzzysort.ts:266-293 | on success, an embedding of the query at or after the start where each match sits right after the previous one (or at the start) or on a word beginning; terminates within 200 backtracks |
| FuzzyMatch.SubstringRewrite | packages/core/src/fuzzysort.ts:301-305 | the indexes become the contiguous run starting at the substring's position |
| FuzzyMatch.SubstringBeginsWordIff | packages/core/src/fuzzysort.ts:306-311 | the test holds exactly when the substring starts on a word beginning other than position 0 |
| FuzzyMatch.RunIsEmbedding | packages/core/src/fuzzysort.ts:301-305 | the run at a contiguous occurrence is an embedding |
| FuzzyMatch.GroupsWithinDistance | packages/core/src/fuzzysort.ts:326-336 | extra match groups never outnumber unmatched positions; both are zero exactly on a contiguous run |
| FuzzyAlgorithm.Prepared.constructor | packages/core/src/fuzzysort.ts:95-106 | a valid record for the target: lowered text, codes and mask derived from it, no beginning table, score `MAX_SAFE_INTEGER`, indexes `[0]` |
| FuzzyAlgorithm.TallyGroups | packages/core/src/fuzzysort.ts:326-332 | subtracts the position of every match that starts a new group, and counts those groups |
| FuzzyAlgorithm.RawScoreUnfold | packages/core/src/fuzzysort.ts:336-354 | the raw score is the group and start penalties times the strictness multiplier |
| FuzzyAlgorithm.GapSumNonNegative | packages/core/src/fuzzysort.ts:326-332 | for increasing non-negative indexes, the group penalty sum is not negative |
| FuzzyAlgorithm.RawScoreNonPositive | packages/core/src/fuzzysort.ts:324-354 | before the bonuses and the length penalty, no match scores above zero |
| FuzzyAlgorithm.DivideNonPositive | packages/core/src/fuzzysort.ts:356-357 | dividing a non-positive score by a divisor of at least one raises it at most to zero |
| FuzzyAlgorithm.ScoreAtMostLengthPenalty | packages/core/src/fuzzysort.ts:356-359 | every score is at most minus the number of target characters the query leaves unmatched |
| FuzzyAlgorithm.ExactMatchScoresZero | packages/core/src/fuzzysort.ts:324-359 | a target equal to the query, matched from position 0, scores 0, the best possible |
| FuzzyAlgorithm.GapSumZeroOnRun | packages/core/src/fuzzysort.ts:326-332 | a contiguous run has no group penalty |
| FuzzyAlgorithm.SubstringBonusNeverHurts | packages/core/src/fuzzysort.ts:356-357 | the substring and word-beginning bonuses never lower a score |
| FuzzyAlgorithm.OccurrenceOfCodes | packages/core/src/fuzzysort.ts:296-305 | an occurrence of the lowered query in the lowered target is an occurrence of its codes |
| FuzzyAlgorithm.GroupAndStartPenalties | packages/core/src/fuzzysort.ts:324-338 | the group penalty and the start-position penalty, subtracted from 0 |
| FuzzyAlgorithm.ComputeScore | packages/core/src/fuzzysort.ts:324-359 | the score formula `Score` of the match layout, with beginnings counted only for strict matches |
| FuzzyAlgorithm.ScaleByBeginnings | packages/core/src/fuzzysort.ts:340-354 | loose matches are scaled by 1000; strict ones by `(n - 24) * 10` when the target has `n > 24` beginnings |
| FuzzyAlgorithm.ApplyBonuses | packages/core/src/fuzzysort.ts:356-359 | divides by `1 + searchLen²` once for a substring and again for a substring on a beginning, then subtracts the length difference |
| FuzzyAlgorithm.ScoreMatch | packages/core/src/fuzzysort.ts:251-359 | the chosen indexes embed the query; they are the strict match when it succeeds, else the substring run if there is one, else the loose match; the score is `Score` of that layout |
| FuzzyAlgorithm.LooseIndexes | packages/core/src/fuzzysort.ts:301-322 | without a strict match, the run at the substring occurrence if there is one, the loose match otherwise; an embedding either way |
| FuzzyAlgorithm.StoreIndexes | packages/core/src/fuzzysort.ts:362-366 | the record's `indexes` become exactly the chosen ones, whatever their old length; nothing else changes |
| FuzzyAlgorithm.Algorithm | packages/core/src/fuzzysort.ts:220-369 | returns the record exactly when the lowered query is a non-empty subsequence of the lowered target, leaves it untouched otherwise; on a match it fills the beginning table and stores an embedding and its score |
| FuzzySort.Caches.constructor | packages/core/src/fuzzysort.ts:213-214 | both caches start empty |
| FuzzySort.Caches.GetPrepared | packages/core/src/fuzzysort.ts:124-131 | a valid record for the target; above 999 characters always fresh and uncached; otherwise the cached record, or a fresh one that is then cached |
| FuzzySort.Caches.Store | packages/core/src/fuzzysort.ts:129 | adds exactly that entry to the target cache |
| FuzzySort.Caches.GetPreparedSearch | packages/core/src/fuzzysort.ts:133-145 | the prepared query; cached under the same 999-character policy |
| FuzzySort.Caches.StoreSearch | packages/core/src/fuzzysort.ts:143 | adds exactly that entry to the query cache |
| FuzzySort.SubsequenceMaskContained | packages/core/src/fuzzysort.ts:53-55 | the mask pre-filter never rejects a target the query is a subsequence of |
| FuzzySort.MinIndex | packages/core/src/fuzzysort.ts:69 | the position of a lowest score |
| FuzzySort.ScoreQueue.constructor | packages/core/src/fuzzysort.ts:218 | the queue starts empty |
| FuzzySort.ScoreQueue.Add | packages/core/src/fuzzysort.ts:66 | appends the result |
| FuzzySort.ScoreQueue.Peek | packages/core/src/fuzzysort.ts:69 | nothing on an empty queue, otherwise a lowest-scored result |
| FuzzySort.ScoreQueue.ReplaceTop | packages/core/src/fuzzysort.ts:71 | a lowest-scored result is replaced by the new one |
| FuzzySort.ScoreQueue.Poll | packages/core/src/fuzzysort.ts:84 | removes and returns a lowest-scored result, nothing on an empty queue |
| FuzzySort.PassingMembers | packages/core/src/fuzzysort.ts:57-63 | a result passes exactly when it is some target's match and reaches the threshold |
| FuzzySort.PassingLength | packages/core/src/fuzzysort.ts:57-63 | at most one passing match per target |
| FuzzySort.FuzzySort | packages/core/src/fuzzysort.ts:30-93 | every target's outcome matches exactly when the target is non-empty and the query is a non-empty subsequence of it; the results are `min(limit, passing)` passing matches, best first, no pushed-out match beating a kept one |
| FuzzySort.Select | packages/core/src/fuzzysort.ts:41-74 | after the loop the queue holds the best `limit` passing matches, and the rest were pushed out |
| FuzzySort.OutcomesSnoc | packages/core/src/fuzzysort.ts:44-74 | one more iteration extends the recorded outcomes |
| FuzzySort.Record | packages/core/src/fuzzysort.ts:59-73 | a match reaching the threshold is offered to the queue; the queue invariant is kept |
| FuzzySort.Offer | packages/core/src/fuzzysort.ts:65-73 | added while fewer than `limit` are kept, else swapped for the top only when strictly better; the queue keeps the best `limit` offers |
| FuzzySort.KeptAdd | packages/core/src/fuzzysort.ts:65-67 | an offer made below the limit is kept |
| FuzzySort.KeptSwap | packages/core/src/fuzzysort.ts:69-71 | a better offer replaces the top, which is pushed out, and the invariant holds |
| FuzzySort.SwapMultiset | packages/core/src/fuzzysort.ts:71 | after the swap, kept and pushed-out results together are still all offers |
| FuzzySort.SwapOrdered | packages/core/src/fuzzysort.ts:70-71 | after the swap, nothing pushed out beats anything kept |
| FuzzySort.KeptReject | packages/core/src/fuzzysort.ts:69-72 | an offer no better than the top is pushed out at once |
| FuzzySort.Drain | packages/core/src/fuzzysort.ts:80-90 | the array holds exactly the queued results, in non-increasing score order |
| FuzzySort.FilledStep | packages/core/src/fuzzysort.ts:85-88 | writing one more slot from the end extends the filled suffix |
| FuzzySort.DrainStep | packages/core/src/fuzzysort.ts:84 | polling the lowest keeps the drained part best first and no better than the rest |
| FuzzySort.DescendingPrepend | packages/core/src/fuzzysort.ts:82-90 | prepending a result at least as good as the first keeps the order best first |
| FuzzySort.AsResults | packages/core/src/fuzzysort.ts:85-88 | one public result per ranked match, with its target and indexes |
| FuzzySort.MatchTarget | packages/core/src/fuzzysort.ts:45-57 | an empty target is skipped; any other target gets an outcome that matches exactly when the query is a non-empty subsequence of it |
| FuzzySort.Evaluate | packages/core/src/fuzzysort.ts:53-61 | the mask test, then `algorithm`: a match exactly on a non-empty subsequence, with an embedding as indexes |
| CoreTree.WindowShape | packages/core/src/tree.ts:113-115 | keeps exactly the indexes from `startsAt` to `startsAt + len` inclusive, shifted, in their order, never more |
| CoreTree.AdjustIndexesShape | packages/core/src/tree.ts:106-116 | the kept highlights are exactly those on the piece, as offsets within it, in order |
| CoreTree.FileHighlightsInsideName | packages/core/src/tree.ts:129-130 | highlights inside the path that survive the window land at offsets strictly inside the file name |
| CoreTree.DirPaths | packages/core/src/tree.ts:62 | the known directories' paths, in order |
| CoreTree.Collapse | packages/core/src/tree.ts:52-94 | the entry `Collapsed` of the file's split path |
| CoreTree.CollapsedShape | packages/core/src/tree.ts:58-83 | the entry is the file's directory and hangs from the longest agreement with a known directory; its name is the directory segments past that agreement, or its whole directory path when there is none |
| CoreTree.CollapsedFile | packages/core/src/tree.ts:84-90 | the entry lists just the file, under its own name and path, with the highlights on its name |
| CoreTree.CollapsedName | packages/core/src/tree.ts:69-71 | the name is the segments after the first `n` without the file name, "" past the end |
| CoreTree.FindSibling | packages/core/src/tree.ts:124-126 | the first entry with that directory, or none when no entry has it |
| CoreTree.SplitPaths | packages/core/src/tree.ts:144-146 | every file's split path, in order |
| CoreTree.MakeEntry | packages/core/src/tree.ts:118-162 | the `MadeEntry` of the file |
| CoreTree.MadeEntryShape | packages/core/src/tree.ts:118-162 | the entry is the file's directory and lists the file last; when an entry for that directory exists, the first one is extended and no agreement is returned; otherwise the agreement is the first longest with any other file |
| CoreTree.BuiltAfter | packages/core/src/tree.ts:192-201 | one entry per file handled |
| CoreTree.BuildEntries | packages/core/src/tree.ts:188-201 | the first loop yields one entry per file, each the file's directory listing that file last |
| CoreTree.AddEntry | packages/core/src/tree.ts:193-199 | one iteration appends the file's entry and records its agreement |
| CoreTree.MadeEntryOf | packages/core/src/tree.ts:118-162 | the made entry is the file's directory and lists it last |
| CoreTree.SegmentOrder | packages/core/src/tree.ts:171-173 | fewer-or-equal segments is a total preorder, and in a list so sorted the comparator never puts a later path first |
| CoreTree.ItemsOf | packages/core/src/tree.ts:240-247 | one file item per entry file, at the node's depth |
| CoreTree.FileOrderShape | packages/core/src/tree.ts:248-250 | descending name order is a total preorder, and in files so sorted the comparator keeps every earlier file first |
| CoreTree.Keys | packages/core/src/tree.ts:232 | the key each entry is stored under, in order |
| CoreTree.BuildNodes | packages/core/src/tree.ts:203-253 | the root plus one node per entry; each node hangs from the parent `dirmap` gave it, with the right depth, `expanded` flag and sorted files; `dirmap` with its keys in insertion order |
| CoreTree.MakeNode | packages/core/src/tree.ts:228-252 | the node for one entry, as `NodeFor` describes |
| CoreTree.NodesStep | packages/core/src/tree.ts:227-253 | one iteration keeps the second loop's invariant |
| CoreTree.NodesKept | packages/core/src/tree.ts:232 | creating a node keeps what holds of the nodes before it |
| CoreDerive.PlainFiles | packages/core/src/tree.ts:181-185 | without a search, every path with no highlights |
| CoreDerive.FromResults | packages/core/src/tree.ts:181-185 | with a search, every result's path with its match indexes |
| CoreDerive.ResultsPermutation | packages/core/src/tree.ts:181-185 | mapping two permutations of the same matches to highlighted paths gives permutations of the same paths |
| CoreDerive.Filter | packages/core/src/tree.ts:181-185 | an empty search keeps every path; otherwise every kept path is one of the input paths, highlighted at an embedding of the query, and (below 2^53 - 1 paths) the kept paths are, as a multiset, exactly the matches reaching the default threshold |
| CoreDerive.MaterializedDepths | packages/core/src/tree.ts:216-231 | below a linked node, each child sits one level deeper than its parent |
| CoreDerive.UnlinkedIff | packages/core/src/tree.ts:229 | the last loop throws exactly when some entry kept in `dirmap` got no parent |
| CoreDerive.UnlinkedAt | packages/core/src/tree.ts:229 | a node is listed without a parent exactly when its entry is unlinked |
| CoreDerive.NodeParent | packages/core/src/tree.ts:228-229 | each node's parent is the root or the `dirmap` hit for its entry's parent |
| CoreDerive.LinkedTree | packages/core/src/tree.ts:255-260 | the returned root is the root record, depths count levels from 0, and every node below is as the second loop built it |
| CoreDerive.SortedFiles | packages/core/src/tree.ts:181-186 | the filtered paths, sorted by segment count: a permutation of all paths when there is no search, and of exactly the matches reaching the default threshold (below 2^53 - 1 paths) when there is one |
| CoreDerive.Link | packages/core/src/tree.ts:203-260 | the arena holds the root then one node per entry as the second loop builds it; no tree exactly when the last loop throws; otherwise the tree read from the root of that arena once linked in `dirmap` order, with level depths and nodes shown as built |
| CoreDerive.DeriveTree | packages/core/src/tree.ts:180-261 | filtered and sorted paths (exactly the matches reaching the default threshold, below 2^53 - 1 paths), one entry per path, one node per entry, and the tree read from the root of the linked arena (none when the last loop throws) with level depths and nodes as built |
| LegacyTree.Collapse | src/tree.ts:29-63 | the entry `Collapsed` of the path's segments |
| LegacyTree.CollapsedShape | src/tree.ts:35-60 | the entry is the path's directory and hangs from the longest agreement with a known directory; its name is the directory segments past that agreement; it lists just the file |
| LegacyTree.CollapsedName | src/tree.ts:46-48 | the name is the segments after the first `n` without the file name, "" past the end |
| LegacyTree.FindSibling | src/tree.ts:81 | the first entry with that directory, or none when no entry has it |
| LegacyTree.OthersShape | src/tree.ts:92 | the other paths are those of every file whose path differs from the target, so duplicates of the target are left out |
| LegacyTree.MakeEntry | src/tree.ts:75-108 | the `MadeEntry` of the path |
| LegacyTree.MadeEntryShape | src/tree.ts:75-108 | the entry is the path's directory and lists it last; an existing entry for that directory is extended with no agreement returned; otherwise the agreement is the first longest with any other path |
| LegacyTree.MadeEntryOf | src/tree.ts:75-108 | the made entry is the path's directory and lists it last |
| LegacyTree.BuiltAfter | src/tree.ts:137-144 | one entry per path handled |
| LegacyTree.BuildEntries | src/tree.ts:133-144 | the first loop yields one entry per path, each the path's directory listing it last |
| LegacyTree.AddEntry | src/tree.ts:138-142 | one iteration appends the path's entry and records its agreement |
| LegacyTree.SegmentOrder | src/tree.ts:131 | fewer-or-equal segments is a total preorder, and in a list so sorted the comparator never puts a later path first |
| LegacyTree.ItemsOf | src/tree.ts:166-172 | one file item per entry file, nothing highlighted |
| LegacyTree.FileOrderShape | src/tree.ts:173-175 | descending name order is a total preorder, and in files so sorted the comparator keeps every earlier file first |
| LegacyTree.Keys | src/tree.ts:160 | the key each entry is stored under, in order |
| LegacyTree.BuildNodes | src/tree.ts:146-178 | the root plus one node per entry, each hung from the parent `dirmap` gave it, with sorted files; `dirmap` with its keys in insertion order |
| LegacyTree.MakeNode | src/tree.ts:158-177 | the node for one entry, as `NodeFor` describes |
| LegacyTree.NodesStep | src/tree.ts:157-178 | one iteration keeps the second loop's invariant |
| LegacyTree.NodesKept | src/tree.ts:160 | creating a node keeps what holds of the nodes before it |
| LegacyTree.NodeParent | src/tree.ts:158-159 | each node's parent is the root or the `dirmap` hit for its entry's parent |
| LegacyTree.UnlinkedAt | src/tree.ts:159 | a node is listed without a parent exactly when its entry is unlinked |
| LegacyTree.UnlinkedIff | src/tree.ts:159 | the last loop throws exactly when some entry kept in `dirmap` got no parent |
| LegacyTree.LinkedTree | src/tree.ts:180-185 | the returned root is the root record, and every node below is as the second loop built it |
| LegacyTree.Link | src/tree.ts:146-185 | the arena holds the root then one node per entry as the second loop builds it; no tree exactly when the last loop throws; otherwise the tree read from the root of that arena once linked in `dirmap` order, every node below shown as built |
| LegacyTree.DeriveTree | src/tree.ts:130-186 | sorts the caller's array in place into a sorted permutation, makes one entry per path and one node per entry, and returns the tree read from the root of the linked arena (none when the last loop throws) |

## Left out

- Scores are exact `real` numbers. IEEE-754 rounding of the score arithmetic is not modelled.
- The queue in `fpq.js` is not part of this model. The queue is modelled by its observable behaviour: `peek`, `replaceTop` and `poll` act on a lowest score. Which of several equal scores they pick is unspecified, so the order among equal scores is not modelled.
- The caches, the queue and the arrays `matchesSimple`/`matchesStrict` are module state in the source. Here the caches are an object passed in, and the match arrays are local sequences. Aliasing through a cached record (a result's `indexes` changing when the same target is matched again) is not modelled.
- `prepareSearch` replaces a non-string query with "". The model is typed, so that branch does not arise.
- Options: a `NaN` threshold or limit and a non-integer limit are not modelled. The options are an optional real threshold and an optional integer limit, with 0 meaning absent, as `||` reads them.
- `toLowerCase` is modelled on ASCII letters only. Unicode case mapping, including mappings that change the length, is left out.
- Strings are sequences of Unicode scalar values. Text outside the Basic Multilingual Plane, where JavaScript counts UTF-16 code units, is not modelled. `trim` uses the JavaScript white-space set.
- `localeCompare` is modelled as code-point lexicographic order. Locale collation is not modelled.
- `Array.prototype.sort` is modelled as a stable insertion sort. The comparators never return 0, so for paths with equal segment counts and for equal names, the order the engine would produce is not modelled. The contracts state sortedness and permutation only.
- Both builders fill an unused `map` of entries. It is left out.
- The root's `parent: undefined`, `delete v.parent` and the `relative: "/"` field are represented by the arena slot's optional parent. The node objects themselves are arena slots, so object identity is positional.
- `dirmap.get(entry.parent)!` on a missing key leaves `parent` undefined, and the last loop then throws a TypeError. The model returns no tree in that case.
- The strict scan starts from the last index of the loose scan, because only `searchI` is reset. The model follows that code, not a description of a scan from the start.
- The statement `parent === "" ? "/" : parent` in both `collapse` functions has no effect and is not modelled.
- `collapsed` being undefined is modelled as the empty set. The `search` option is a string, and "" means no search, as in the source's truthiness test.
- CoreDerive.Filter: states that the kept paths are exactly the passing matches only when there are fewer than 2^53 - 1 paths. With more, `fuzzysort`'s default limit of `Number.MAX_SAFE_INTEGER` applies, and FuzzySort.FuzzySort states which matches it keeps.
- CoreDerive.SortedFiles: the same bound of fewer than 2^53 - 1 paths, inherited from CoreDerive.Filter.
- CoreDerive.DeriveTree: the same bound of fewer than 2^53 - 1 paths, inherited from CoreDerive.Filter.
- FuzzySort.Evaluate: states the match decision and that the indexes embed the query, not the stored score. The score is stated by FuzzyAlgorithm.Algorithm.
- The core `deriveTree` is split over the CoreTree module (entries and nodes) and the CoreDerive module (filter, linking and the root).
- The React and Vue packages, the demo, and the tree rendering are not part of this model.
