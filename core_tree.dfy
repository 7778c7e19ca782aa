/**
 * The path-tree builder of packages/core/src/tree.ts: it turns a list of
 * "/"-separated paths (optionally filtered and highlighted by `fuzzysort`)
 * into a directory tree whose single-child directory chains are collapsed
 * into one node. The first pass makes one entry per file; the second
 * creates a node per entry with its depth, `expanded` flag and sorted
 * files; the last loop links every node into its parent.
 */
module CoreTree {
  import opened Wrappers
  import opened Text
  import opened PathHelpers
  import opened Sorting
  import opened DirArena
  import opened FuzzyMatch

  /** A path with the match indexes of the query in it. */
  datatype FuzzyFile = FuzzyFile(relative: string, indexes: seq<int>)

  /** A directory path recorded by `makeEntry` (a `best` agreement). */
  datatype KnownDir = KnownDir(relative: seq<string>, indexes: seq<int>)

  datatype EntryFile = EntryFile(name: string, relative: string, indexes: seq<int>)

  /**
   * One collapsed directory: its display `name`, its path `relative`, the
   * path of the file that created it, highlights inside `name`, the joined
   * agreement it hangs from (`parent`), and its files.
   */
  datatype Entry = Entry(name: string, relative: string, originalRelative: string,
                         indexes: seq<int>, parent: string, files: seq<EntryFile>)

  // ---------------------------------------------------------------- adjustIndexes

  /** Which search `adjustIndexes` uses to place the piece in the path. */
  datatype Locate = ByIndexOf | ByLastIndexOf

  function StartsAt(piece: string, target: FuzzyFile, pos: Locate): int
  {
    match pos
    case ByIndexOf => IndexOf(target.relative, piece, 0)
    case ByLastIndexOf => LastIndexOf(target.relative, piece)
  }

  /** Keeps the indexes in `[startsAt, startsAt + len]` and shifts them by `-startsAt`. */
  function Window(indexes: seq<int>, startsAt: int, len: nat): seq<int>
  {
    if |indexes| == 0 then []
    else
      (if startsAt <= indexes[0] <= startsAt + len then [indexes[0] - startsAt] else [])
      + Window(indexes[1..], startsAt, len)
  }

  /** `adjustIndexes(piece, target, pos)`: the highlights that fall on `piece`. */
  function AdjustIndexes(piece: string, target: FuzzyFile, pos: Locate): seq<int>
  {
    Window(target.indexes, StartsAt(piece, target, pos), |piece|)
  }

  /**
   * The window never lengthens the list, keeps exactly the indexes within
   * `len` at or after `startsAt` (inclusive at both ends), and keeps their
   * order.
   */
  lemma {:induction false} WindowShape(indexes: seq<int>, startsAt: int, len: nat)
    ensures |Window(indexes, startsAt, len)| <= |indexes|
    ensures forall x :: x in Window(indexes, startsAt, len) <==> x + startsAt in indexes && 0 <= x <= len
    ensures Increasing(indexes) ==> Increasing(Window(indexes, startsAt, len))
  {
    if |indexes| > 0 {
      var rest := indexes[1..];
      WindowShape(rest, startsAt, len);
      assert indexes == [indexes[0]] + rest;
      if Increasing(indexes) {
        assert Increasing(rest);
        var w := Window(indexes, startsAt, len);
        var wr := Window(rest, startsAt, len);
        forall k, m | 0 <= k < m < |w|
          ensures w[k] < w[m]
        {
          if |w| == |wr| + 1 {
            if k == 0 {
              assert w[m] == wr[m - 1] && wr[m - 1] in wr;
              assert wr[m - 1] + startsAt in rest;
            } else {
              assert w[k] == wr[k - 1] && w[m] == wr[m - 1];
            }
          }
        }
      }
    }
  }

  /** The highlights `adjustIndexes` keeps are offsets within the piece, in order. */
  lemma AdjustIndexesShape(piece: string, target: FuzzyFile, pos: Locate)
    ensures |AdjustIndexes(piece, target, pos)| <= |target.indexes|
    ensures forall x :: x in AdjustIndexes(piece, target, pos) <==>
      0 <= x <= |piece| && x + StartsAt(piece, target, pos) in target.indexes
    ensures Increasing(target.indexes) ==> Increasing(AdjustIndexes(piece, target, pos))
  {
    WindowShape(target.indexes, StartsAt(piece, target, pos), |piece|);
  }

  /**
   * The file name is a suffix, so `lastIndexOf` finds it at the end, and a
   * highlight inside the path lands strictly inside the file name.
   */
  lemma FileHighlightsInsideName(target: FuzzyFile)
    requires forall x :: x in target.indexes ==> x < |target.relative|
    ensures forall x :: x in AdjustIndexes(GetFilename(target.relative), target, ByLastIndexOf) ==>
      0 <= x < |GetFilename(target.relative)|
  {
    var rel, file := target.relative, GetFilename(target.relative);
    PathFilenameRejoin(rel);
    if !NoSlash(rel) {
      assert rel == (GetPath(rel) + "/") + file;
    }
    assert rel[|rel| - |file|..] == file;
    LastIndexOfSuffix(rel, file);
    WindowShape(target.indexes, |rel| - |file|, |file|);
  }

  // ---------------------------------------------------------------- collapse

  function DirPaths(knownDirs: seq<KnownDir>): (r: seq<seq<string>>)
    ensures |r| == |knownDirs| && forall i :: 0 <= i < |r| ==> r[i] == knownDirs[i].relative
  {
    seq(|knownDirs|, i requires 0 <= i < |knownDirs| => knownDirs[i].relative)
  }

  /** The segments after the first `n`, as `curr.slice(n)` (empty past the end). */
  function Drop(curr: seq<string>, n: nat): seq<string>
  {
    if n <= |curr| then curr[n..] else []
  }

  /** Every segment but the last, as `trun.slice(0, trun.length - 1)`. */
  function ButLast(segs: seq<string>): seq<string>
  {
    if |segs| == 0 then [] else segs[..|segs| - 1]
  }

  /**
   * What `collapse(curr, dir, target, knownDirs)` returns for the split path
   * `curr` of `target`, given the agreement `dir` with the other files.
   */
  function Collapsed(curr: seq<string>, dir: seq<string>, target: FuzzyFile, knownDirs: seq<KnownDir>): Entry
    requires |curr| >= 1
  {
    var longest := FirstLongest(DirPaths(knownDirs), dir);
    var name := Join(ButLast(Drop(curr, |longest|)));
    var file := curr[|curr| - 1];
    Entry(name, Join(curr[..|curr| - 1]), target.relative,
          AdjustIndexes(name, target, ByIndexOf), Join(longest),
          [EntryFile(file, Join(curr), AdjustIndexes(file, target, ByLastIndexOf))])
  }

  /** `collapse`, with its max-finding loop over the known directories. */
  method Collapse(curr: seq<string>, dir: seq<string>, target: FuzzyFile, knownDirs: seq<KnownDir>)
    returns (e: Entry)
    requires |curr| >= 1
    ensures e == Collapsed(curr, dir, target, knownDirs)
  {
    var longest := LongestAgreement(DirPaths(knownDirs), dir);
    var parent := Join(longest);
    var trun := Drop(curr, |longest|);
    var relative := Join(curr[..|curr| - 1]);
    var name := Join(ButLast(trun));
    var file := curr[|curr| - 1];
    var adjusted := AdjustIndexes(file, target, ByLastIndexOf);
    var pathAdjusted := AdjustIndexes(name, target, ByIndexOf);
    e := Entry(name, relative, target.relative, pathAdjusted, parent,
               [EntryFile(file, Join(curr), adjusted)]);
  }

  /**
   * For the split path of a file, the new entry is the file's directory,
   * hangs from the longest agreement with a known directory, is named by the
   * directory segments past that agreement, and holds just that file. With
   * no agreement its name is its whole directory path, which attaches it to
   * the root.
   */
  lemma CollapsedShape(target: FuzzyFile, dir: seq<string>, knownDirs: seq<KnownDir>)
    ensures var curr := Split(target.relative);
            var e := Collapsed(curr, dir, target, knownDirs);
            var longest := FirstLongest(DirPaths(knownDirs), dir);
            && e.relative == GetPath(target.relative)
            && e.originalRelative == target.relative
            && e.parent == Join(longest)
            && (|longest| < |curr| ==> e.name == Join(curr[|longest|..|curr| - 1]))
            && (|longest| >= |curr| ==> e.name == "")
            && (longest == [] ==> e.name == e.relative)
  {
    var curr, longest := Split(target.relative), FirstLongest(DirPaths(knownDirs), dir);
    CollapsedName(curr, |longest|);
    assert Collapsed(curr, dir, target, knownDirs).name == Join(ButLast(Drop(curr, |longest|)));
  }

  /** The entry `collapse` makes lists the file itself, under its own name and path, with its highlights. */
  lemma CollapsedFile(target: FuzzyFile, dir: seq<string>, knownDirs: seq<KnownDir>)
    ensures var file := GetFilename(target.relative);
            Collapsed(Split(target.relative), dir, target, knownDirs).files ==
              [EntryFile(file, target.relative, AdjustIndexes(file, target, ByLastIndexOf))]
  {
    JoinSplit(target.relative);
  }

  /** The name `collapse` gives: the segments after the first `n`, without the file name. */
  lemma CollapsedName(curr: seq<string>, n: nat)
    requires |curr| >= 1
    ensures n < |curr| ==> Join(ButLast(Drop(curr, n))) == Join(curr[n..|curr| - 1])
    ensures n >= |curr| ==> Join(ButLast(Drop(curr, n))) == ""
    ensures n == 0 ==> Join(ButLast(Drop(curr, n))) == Join(curr[..|curr| - 1])
  {
    if n < |curr| {
      assert ButLast(Drop(curr, n)) == curr[n..|curr| - 1];
    }
  }

  // ---------------------------------------------------------------- makeEntry

  /** `entries.find(x => x.relative === rel)`: the first entry with that path. */
  function FindSibling(entries: seq<Entry>, rel: string): (r: Option<nat>)
    ensures r.Some? ==> (r.value < |entries| && entries[r.value].relative == rel
                         && forall k :: 0 <= k < r.value ==> entries[k].relative != rel)
    ensures r.None? ==> forall k :: 0 <= k < |entries| ==> entries[k].relative != rel
  {
    if |entries| == 0 then None
    else
      match FindSibling(entries[..|entries| - 1], rel)
      case Some(s) => Some(s)
      case None => if entries[|entries| - 1].relative == rel then Some(|entries| - 1) else None
  }

  function SplitPaths(files: seq<FuzzyFile>): (r: seq<seq<string>>)
    ensures |r| == |files| && forall i :: 0 <= i < |r| ==> r[i] == Split(files[i].relative)
  {
    seq(|files|, i requires 0 <= i < |files| => Split(files[i].relative))
  }

  /** `files.filter(x => x !== target)`: every file object but the target's own, split. */
  function Others(files: seq<FuzzyFile>, t: nat): seq<seq<string>>
    requires t < |files|
  {
    SplitPaths(files[..t] + files[t + 1..])
  }

  datatype Made = Made(best: Option<seq<string>>, entry: Entry)

  /** What `makeEntry` returns for the file at position `t` of `files`. */
  function MadeEntry(files: seq<FuzzyFile>, t: nat, knownDirs: seq<KnownDir>, entries: seq<Entry>): Made
    requires t < |files|
  {
    var target := files[t];
    match FindSibling(entries, GetPath(target.relative))
    case Some(s) =>
      var file := GetFilename(target.relative);
      Made(None, entries[s].(files := entries[s].files
                                      + [EntryFile(file, target.relative, AdjustIndexes(file, target, ByLastIndexOf))]))
    case None =>
      var curr := Split(target.relative);
      var best := FirstLongest(Others(files, t), curr);
      Made(Some(best), Collapsed(curr, best, target, knownDirs))
  }

  /** `makeEntry`: the sibling case, else the max-finding loop and `collapse`. */
  method MakeEntry(files: seq<FuzzyFile>, t: nat, knownDirs: seq<KnownDir>, entries: seq<Entry>)
    returns (made: Made)
    requires t < |files|
    ensures made == MadeEntry(files, t, knownDirs, entries)
  {
    var target := files[t];
    var knownSibling := FindSibling(entries, GetPath(target.relative));
    if knownSibling.Some? {
      var sibling := entries[knownSibling.value];
      var file := GetFilename(target.relative);
      var adjusted := AdjustIndexes(file, target, ByLastIndexOf);
      return Made(None, sibling.(files := sibling.files + [EntryFile(file, target.relative, adjusted)]));
    }
    var others := Others(files, t);
    var curr := Split(target.relative);
    var best := [];
    for i := 0 to |others|
      invariant best == FirstLongest(others[..i], curr)
    {
      var next := LongestCommonPath(curr, others[i]);
      CommonPathSymmetric(curr, others[i]);
      assert others[..i + 1][..i] == others[..i];
      if |next| > |best| {
        best := next;
      }
    }
    assert others[..|others|] == others;
    var entry := Collapse(curr, best, target, knownDirs);
    made := Made(Some(best), entry);
  }

  /**
   * Whatever the case, the entry made for a file is its directory and lists
   * the file last. When an entry for that directory exists, the first one is
   * extended and no agreement is returned; otherwise the agreement is the
   * first longest one with any other file.
   */
  lemma MadeEntryShape(files: seq<FuzzyFile>, t: nat, knownDirs: seq<KnownDir>, entries: seq<Entry>)
    requires t < |files|
    ensures EntryOf(MadeEntry(files, t, knownDirs, entries).entry, files[t].relative)
    ensures var e := MadeEntry(files, t, knownDirs, entries).entry;
            var file := GetFilename(files[t].relative);
            e.files[|e.files| - 1] == EntryFile(file, files[t].relative, AdjustIndexes(file, files[t], ByLastIndexOf))
    ensures MadeEntry(files, t, knownDirs, entries).best.None?
        <==> exists k :: 0 <= k < |entries| && entries[k].relative == GetPath(files[t].relative)
    ensures var m := MadeEntry(files, t, knownDirs, entries);
            m.best.None? ==> var s := FindSibling(entries, GetPath(files[t].relative)).value;
                             m.entry == entries[s].(files := entries[s].files + [m.entry.files[|m.entry.files| - 1]])
    ensures var m := MadeEntry(files, t, knownDirs, entries);
            m.best.Some? ==> m.best.value == FirstLongest(Others(files, t), Split(files[t].relative))
  {
    var rel := files[t].relative;
    if FindSibling(entries, GetPath(rel)).None? {
      CollapsedShape(files[t], FirstLongest(Others(files, t), Split(rel)), knownDirs);
      CollapsedFile(files[t], FirstLongest(Others(files, t), Split(rel)), knownDirs);
    }
  }

  // ---------------------------------------------------------------- first pass

  /** The directory `deriveTree` records for a returned agreement. */
  function KnownFrom(best: Option<seq<string>>, file: FuzzyFile): seq<KnownDir>
  {
    if best.None? then [] else [KnownDir(best.value, AdjustIndexes(Join(best.value), file, ByIndexOf))]
  }

  datatype Built = Built(entries: seq<Entry>, dirs: seq<KnownDir>)

  /** `entries` and `dirs` after the first `n` files of the first loop. */
  function BuiltAfter(files: seq<FuzzyFile>, n: nat): (b: Built)
    requires n <= |files|
    ensures |b.entries| == n
  {
    if n == 0 then Built([], [])
    else
      var prev := BuiltAfter(files, n - 1);
      var made := MadeEntry(files, n - 1, prev.dirs, prev.entries);
      Built(prev.entries + [made.entry], prev.dirs + KnownFrom(made.best, files[n - 1]))
  }

  /**
   * The first loop of `deriveTree`: one entry per file, in order, each the
   * directory of its file and listing that file last, plus the agreements
   * returned on the way.
   */
  method BuildEntries(files: seq<FuzzyFile>) returns (entries: seq<Entry>, dirs: seq<KnownDir>)
    ensures Built(entries, dirs) == BuiltAfter(files, |files|)
    ensures forall i :: 0 <= i < |files| ==> EntryOf(entries[i], files[i].relative)
  {
    entries, dirs := [], [];
    for i := 0 to |files|
      invariant Built(entries, dirs) == BuiltAfter(files, i)
      invariant forall j :: 0 <= j < i ==> EntryOf(entries[j], files[j].relative)
    {
      entries, dirs := AddEntry(files, i, entries, dirs);
    }
  }

  /** One step of the first loop: make the entry of file `i` and record its agreement. */
  method AddEntry(files: seq<FuzzyFile>, i: nat, entries: seq<Entry>, dirs: seq<KnownDir>)
    returns (entries': seq<Entry>, dirs': seq<KnownDir>)
    requires i < |files| && Built(entries, dirs) == BuiltAfter(files, i)
    requires forall j :: 0 <= j < i ==> EntryOf(entries[j], files[j].relative)
    ensures Built(entries', dirs') == BuiltAfter(files, i + 1)
    ensures forall j :: 0 <= j <= i ==> EntryOf(entries'[j], files[j].relative)
  {
    var made := MakeEntry(files, i, dirs, entries);
    MadeEntryOf(files, i, dirs, entries);
    entries' := entries + [made.entry];
    dirs' := dirs;
    if made.best.Some? {
      var joined := Join(made.best.value);
      var indexes := AdjustIndexes(joined, files[i], ByIndexOf);
      dirs' := dirs + [KnownDir(made.best.value, indexes)];
    }
    forall j | 0 <= j <= i
      ensures EntryOf(entries'[j], files[j].relative)
    {
      if j < i {
        assert entries'[j] == entries[j];
      }
    }
  }

  lemma MadeEntryOf(files: seq<FuzzyFile>, t: nat, knownDirs: seq<KnownDir>, entries: seq<Entry>)
    requires t < |files|
    ensures EntryOf(MadeEntry(files, t, knownDirs, entries).entry, files[t].relative)
  {
    MadeEntryShape(files, t, knownDirs, entries);
  }

  /** `e` is the directory of the file at `rel` and lists that file last. */
  ghost predicate EntryOf(e: Entry, rel: string)
  {
    && e.relative == GetPath(rel)
    && |e.files| >= 1
    && e.files[|e.files| - 1].relative == rel
    && e.files[|e.files| - 1].name == GetFilename(rel)
  }

  // ---------------------------------------------------------------- sorting by segment count

  /** `sortByRelative`: -1 when `x` has fewer "/"-segments, else 1. */
  function SortByRelative(x: FuzzyFile, y: FuzzyFile): int
  {
    if SegmentCount(x.relative) < SegmentCount(y.relative) then -1 else 1
  }

  /** "May come before" under `sortByRelative`: no more segments than the other. */
  function FewerSegments(x: FuzzyFile, y: FuzzyFile): bool
  {
    SegmentCount(x.relative) <= SegmentCount(y.relative)
  }

  /**
   * Sorting by segment count is sorting by a total preorder, and in a list so
   * sorted the comparator never puts a later file before an earlier one.
   */
  lemma SegmentOrder(s: seq<FuzzyFile>)
    ensures TotalPreorder(FewerSegments)
    ensures SortedBy(s, FewerSegments) ==>
      forall i, j :: 0 <= i < j < |s| ==> SortByRelative(s[j], s[i]) == 1
  {
  }

  // ---------------------------------------------------------------- nodes

  datatype Item = Item(displayName: string, highlight: seq<int>, relative: string, depth: nat)

  datatype DirInfo = DirInfo(displayName: string, expanded: bool, highlight: seq<int>,
                             relative: string, depth: nat, files: seq<Item>)

  /** The root node: shown as "/", expanded, at depth 0. */
  const Root := DirInfo("/", true, [], "/", 0, [])

  /** The file items of a node: every entry file, at the node's depth. */
  function ItemsOf(files: seq<EntryFile>, depth: nat): (r: seq<Item>)
    ensures |r| == |files|
    ensures forall i :: 0 <= i < |r| ==> r[i] == Item(files[i].name, files[i].indexes, files[i].relative, depth)
  {
    seq(|files|, i requires 0 <= i < |files| => Item(files[i].name, files[i].indexes, files[i].relative, depth))
  }

  /** The file comparator: `y.displayName.localeCompare(x.displayName) > 0 ? 1 : -1`. */
  function FileOrder(x: Item, y: Item): int
  {
    if LocaleCompare(y.displayName, x.displayName) > 0 then 1 else -1
  }

  /** "May come before" for the file sort: a name not below the other's. */
  function NameNotBelow(x: Item, y: Item): bool
  {
    LexLeq(y.displayName, x.displayName)
  }

  /**
   * The file order is a total preorder, and in files so sorted, descending
   * by name, the comparator puts every earlier file before every later one.
   */
  lemma FileOrderShape(s: seq<Item>)
    ensures TotalPreorder(NameNotBelow)
    ensures SortedBy(s, NameNotBelow) ==>
      forall i, j :: 0 <= i < j < |s| ==> FileOrder(s[i], s[j]) == -1
  {
    forall x: Item, y: Item
      ensures NameNotBelow(x, y) || NameNotBelow(y, x)
    {
      LexTotal(x.displayName, y.displayName);
    }
    forall x: Item, y: Item, z: Item | NameNotBelow(x, y) && NameNotBelow(y, z)
      ensures NameNotBelow(x, z)
    {
      LexTransitive(z.displayName, y.displayName, x.displayName);
    }
    if SortedBy(s, NameNotBelow) {
      forall i, j | 0 <= i < j < |s|
        ensures FileOrder(s[i], s[j]) == -1
      {
        LexAntisymmetric(s[i].displayName, s[j].displayName);
      }
    }
  }

  function Keys(entries: seq<Entry>): (keys: seq<string>)
    ensures |keys| == |entries| && forall k :: 0 <= k < |keys| ==> keys[k] == entries[k].relative
  {
    seq(|entries|, k requires 0 <= k < |entries| => entries[k].relative)
  }

  /**
   * The parent picked for entry `k`: the root when its name is its whole
   * path, otherwise whatever `dirmap` holds under its `parent` at that time
   * (`None` for a miss, which `!` does not prevent).
   */
  function ParentFor(entries: seq<Entry>, k: nat): Option<nat>
    requires k < |entries|
  {
    var e := entries[k];
    if e.relative == e.name then Some(0)
    else
      var dirmap := DirmapAfter(Keys(entries), k);
      if e.parent in dirmap then Some(dirmap[e.parent]) else None
  }

  /**
   * Node `k + 1` is the node made for entry `k`: its parent, its depth (the
   * `parent` links above its parent), its `expanded` flag, and its files,
   * sorted by descending name and carrying its depth.
   */
  ghost predicate NodeFor(slots: seq<Slot<DirInfo>>, entries: seq<Entry>, k: nat, collapsed: set<string>)
    requires k < |entries|
  {
    && ParentsEarlier(slots) && k + 1 < |slots|
    && var e, slot := entries[k], slots[k + 1];
    && slot.parent == ParentFor(entries, k)
    && slot.directories == []
    && slot.payload.displayName == e.name
    && slot.payload.highlight == e.indexes
    && slot.payload.relative == e.originalRelative
    && slot.payload.expanded == (GetPath(e.originalRelative) !in collapsed)
    && slot.payload.depth == Hops(slots, slot.parent)
    && SortedBy(slot.payload.files, NameNotBelow)
    && multiset(slot.payload.files) == multiset(ItemsOf(e.files, slot.payload.depth))
  }

  /**
   * The second loop of `deriveTree`: a node per entry after the root, each
   * hung from the parent `dirmap` gives it, and `dirmap` with its keys in
   * first-insertion order.
   */
  method BuildNodes(entries: seq<Entry>, collapsed: set<string>)
    returns (slots: seq<Slot<DirInfo>>, dirmap: map<string, nat>, keyOrder: seq<string>)
    ensures |slots| == |entries| + 1 && slots[0] == Slot(Root, None, [])
    ensures ParentsEarlier(slots) && ChildrenAfter(slots)
    ensures forall k :: 0 <= k < |entries| ==> NodeFor(slots, entries, k, collapsed)
    ensures dirmap == DirmapAfter(Keys(entries), |entries|)
    ensures keyOrder == KeyOrder(Keys(entries), |entries|)
  {
    slots, dirmap, keyOrder := [Slot(Root, None, [])], map[], [];
    for k := 0 to |entries|
      invariant NodesUpTo(slots, entries, k, collapsed)
      invariant dirmap == DirmapAfter(Keys(entries), k) && keyOrder == KeyOrder(Keys(entries), k)
    {
      var slot := MakeNode(entries, k, slots, dirmap, collapsed);
      NodesStep(slots, slot, entries, k, collapsed);
      slots := slots + [slot];
      var e := entries[k];
      if e.relative !in dirmap {
        keyOrder := keyOrder + [e.relative];
      }
      dirmap := dirmap[e.relative := k + 1];
    }
  }

  /** One step of the second loop: the node for entry `k`. */
  method MakeNode(entries: seq<Entry>, k: nat, slots: seq<Slot<DirInfo>>, dirmap: map<string, nat>,
                  collapsed: set<string>) returns (slot: Slot<DirInfo>)
    requires k < |entries| && |slots| == k + 1 && ParentsEarlier(slots)
    requires dirmap == DirmapAfter(Keys(entries), k)
    ensures ParentsEarlier(slots + [slot]) && slot.directories == []
    ensures NodeFor(slots + [slot], entries, k, collapsed)
  {
    FileOrderShape([]);
    var e := entries[k];
    DirmapValues(Keys(entries), k);
    var parent: Option<nat> :=
      if e.relative == e.name then Some(0)
      else if e.parent in dirmap then Some(dirmap[e.parent])
      else None;
    var depth := GetDepth(slots, parent);
    var files := SortSeq(ItemsOf(e.files, depth), NameNotBelow);
    slot := Slot(DirInfo(e.name, GetPath(e.originalRelative) !in collapsed, e.indexes,
                         e.originalRelative, depth, files), parent, []);
    ParentsEarlierAppend(slots, slot);
    HopsAppend(slots, slot, parent);
  }

  /** After `k` steps of the second loop: the root and one childless node per entry so far. */
  ghost predicate NodesUpTo(slots: seq<Slot<DirInfo>>, entries: seq<Entry>, k: nat, collapsed: set<string>)
    requires k <= |entries|
  {
    && |slots| == k + 1 && slots[0] == Slot(Root, None, [])
    && ParentsEarlier(slots)
    && (forall j :: 0 <= j < |slots| ==> slots[j].directories == [])
    && forall j :: 0 <= j < k ==> NodeFor(slots, entries, j, collapsed)
  }

  lemma NodesStep(slots: seq<Slot<DirInfo>>, slot: Slot<DirInfo>, entries: seq<Entry>, k: nat, collapsed: set<string>)
    requires k < |entries| && NodesUpTo(slots, entries, k, collapsed)
    requires ParentsEarlier(slots + [slot]) && slot.directories == []
    requires NodeFor(slots + [slot], entries, k, collapsed)
    ensures NodesUpTo(slots + [slot], entries, k + 1, collapsed)
  {
    NodesKept(slots, slot, entries, k, collapsed);
  }

  /** Creating a node keeps what holds of the nodes before it. */
  lemma NodesKept(slots: seq<Slot<DirInfo>>, slot: Slot<DirInfo>, entries: seq<Entry>, k: nat, collapsed: set<string>)
    requires k < |entries| && |slots| == k + 1 && ParentsEarlier(slots) && ParentsEarlier(slots + [slot])
    requires forall j :: 0 <= j < k ==> NodeFor(slots, entries, j, collapsed)
    ensures forall j :: 0 <= j < k ==> NodeFor(slots + [slot], entries, j, collapsed)
  {
    forall j | 0 <= j < k
      ensures NodeFor(slots + [slot], entries, j, collapsed)
    {
      assert NodeFor(slots, entries, j, collapsed);
      assert (slots + [slot])[j + 1] == slots[j + 1];
      HopsAppend(slots, slot, slots[j + 1].parent);
    }
  }
}
