/**
 * The earlier path-tree builder of src/tree.ts. It builds the same collapsed
 * directory tree as CoreTree but without highlights, depths or `expanded`
 * flags. It sorts the caller's array in place, and it leaves a file's
 * `others` out by string value rather than by position.
 *
 * The two source files each declare their own entry and item records and
 * their own lookups and comparators over them. `FindSibling`, `Keys`,
 * `FewerSegments`, `FileOrder` and `NameNotBelow` are therefore stated again
 * here over this module's `Entry`, `Item` and plain path strings, rather
 * than shared with CoreTree, whose versions read richer records.
 */
module LegacyTree {
  import opened Wrappers
  import opened Text
  import opened PathHelpers
  import opened Sorting
  import opened DirArena

  datatype EntryFile = EntryFile(name: string, relative: string)

  /**
   * A directory entry: the directory `relative`, its display `name` (the
   * segments past its parent), the path it was made for, the joined path of
   * the directory it hangs from, and its files.
   */
  datatype Entry = Entry(name: string, relative: string, originalRelative: string,
                         parent: string, files: seq<EntryFile>)

  // ---------------------------------------------------------------- collapse

  /** The entry `collapse(curr, dir, target, knownDirs)` returns for the split path `curr` of `target`. */
  function Collapsed(curr: seq<string>, dir: seq<string>, target: string, knownDirs: seq<seq<string>>): Entry
    requires |curr| >= 1
  {
    var longest := FirstLongest(knownDirs, dir);
    var trun := if |longest| <= |curr| then curr[|longest|..] else [];
    var name := Join(if |trun| == 0 then [] else trun[..|trun| - 1]);
    Entry(name, Join(curr[..|curr| - 1]), target, Join(longest),
          [EntryFile(curr[|curr| - 1], Join(curr))])
  }

  /** `collapse`, with its max-finding loop over the known directories. */
  method Collapse(curr: seq<string>, dir: seq<string>, target: string, knownDirs: seq<seq<string>>)
    returns (e: Entry)
    requires |curr| >= 1
    ensures e == Collapsed(curr, dir, target, knownDirs)
  {
    var longest := LongestAgreement(knownDirs, dir);
    var parent := Join(longest);
    var trun := if |longest| <= |curr| then curr[|longest|..] else [];
    var relative := Join(curr[..|curr| - 1]);
    var name := Join(if |trun| == 0 then [] else trun[..|trun| - 1]);
    var file := curr[|curr| - 1];
    e := Entry(name, relative, target, parent, [EntryFile(file, Join(curr))]);
  }

  /**
   * For the split path of a file, the new entry is the file's directory,
   * hangs from the longest agreement with a known directory, is named by the
   * directory segments past that agreement and holds just that file; with
   * no agreement its name is its whole directory path.
   */
  lemma CollapsedShape(target: string, dir: seq<string>, knownDirs: seq<seq<string>>)
    ensures var curr := Split(target);
            var e := Collapsed(curr, dir, target, knownDirs);
            var longest := FirstLongest(knownDirs, dir);
            && e.relative == GetPath(target)
            && e.originalRelative == target
            && e.parent == Join(longest)
            && (|longest| < |curr| ==> e.name == Join(curr[|longest|..|curr| - 1]))
            && (|longest| >= |curr| ==> e.name == "")
            && (longest == [] ==> e.name == e.relative)
            && e.files == [EntryFile(GetFilename(target), target)]
  {
    JoinSplit(target);
    CollapsedName(Split(target), |FirstLongest(knownDirs, dir)|);
  }

  /** The name `collapse` gives: the segments after the first `n`, without the file name. */
  lemma CollapsedName(curr: seq<string>, n: nat)
    requires |curr| >= 1
    ensures var trun := if n <= |curr| then curr[n..] else [];
            var name := Join(if |trun| == 0 then [] else trun[..|trun| - 1]);
            && (n < |curr| ==> name == Join(curr[n..|curr| - 1]))
            && (n >= |curr| ==> name == "")
            && (n == 0 ==> name == Join(curr[..|curr| - 1]))
  {
    if n < |curr| {
      assert curr[n..][..|curr| - n - 1] == curr[n..|curr| - 1];
    }
    if n == 0 {
      assert curr[0..] == curr;
    }
  }

  // ---------------------------------------------------------------- makeEntry

  /** `entries.find(x => x.relative === rel)`: the first entry with that path. */
  function FindSibling(entries: seq<Entry>, rel: string): (r: Option<nat>)
    ensures r.Some? ==> (r.value < |entries| && entries[r.value].relative == rel
                         && forall k :: 0 <= k < r.value ==> entries[k].relative != rel)
    ensures r.None? ==> forall k :: 0 <= k < |entries| ==> entries[k].relative != rel
  {
    if |entries| == 0 then None
    else
      match FindSibling(entries[..|entries| - 1], rel)
      case Some(s) => Some(s)
      case None => if entries[|entries| - 1].relative == rel then Some(|entries| - 1) else None
  }

  /** `files.filter(x => x !== target).map(x => x.split("/"))`: every other path, by value. */
  function Others(files: seq<string>, target: string): seq<seq<string>>
  {
    if |files| == 0 then []
    else
      var last := files[|files| - 1];
      Others(files[..|files| - 1], target) + (if last != target then [Split(last)] else [])
  }

  /**
   * The other paths are the split paths of the files other than the target
   * (every copy of the target is left out), in their order.
   */
  lemma {:induction false} OthersShape(files: seq<string>, target: string)
    ensures forall o :: o in Others(files, target) <==>
      exists i :: 0 <= i < |files| && files[i] != target && o == Split(files[i])
    ensures |Others(files, target)| <= |files|
    ensures target !in files ==> |Others(files, target)| == |files|
  {
    if |files| > 0 {
      var init, last := files[..|files| - 1], files[|files| - 1];
      OthersShape(init, target);
      forall o
        ensures o in Others(files, target) <==>
          exists i :: 0 <= i < |files| && files[i] != target && o == Split(files[i])
      {
        if exists i :: 0 <= i < |files| && files[i] != target && o == Split(files[i]) {
          var i :| 0 <= i < |files| && files[i] != target && o == Split(files[i]);
          if i < |init| {
            assert init[i] == files[i];
          }
        }
        if o in Others(init, target) {
          var i :| 0 <= i < |init| && init[i] != target && o == Split(init[i]);
          assert files[i] == init[i];
        }
      }
      if target !in files {
        assert target !in init;
      }
    }
  }

  datatype Made = Made(best: Option<seq<string>>, entry: Entry)

  /** What `makeEntry(target, files, knownDirs, entries)` returns. */
  function MadeEntry(target: string, files: seq<string>, knownDirs: seq<seq<string>>, entries: seq<Entry>): Made
  {
    match FindSibling(entries, GetPath(target))
    case Some(s) =>
      Made(None, entries[s].(files := entries[s].files + [EntryFile(GetFilename(target), target)]))
    case None =>
      var curr := Split(target);
      var best := FirstLongest(Others(files, target), curr);
      Made(Some(best), Collapsed(curr, best, target, knownDirs))
  }

  /** `makeEntry`: the sibling case, else the max-finding loop over the other paths and `collapse`. */
  method MakeEntry(target: string, files: seq<string>, knownDirs: seq<seq<string>>, entries: seq<Entry>)
    returns (made: Made)
    ensures made == MadeEntry(target, files, knownDirs, entries)
  {
    var knownSibling := FindSibling(entries, GetPath(target));
    if knownSibling.Some? {
      var sibling := entries[knownSibling.value];
      return Made(None, sibling.(files := sibling.files + [EntryFile(GetFilename(target), target)]));
    }
    var others := Others(files, target);
    var curr := Split(target);
    var best := [];
    for i := 0 to |others|
      invariant best == FirstLongest(others[..i], curr)
    {
      var next := LongestCommonPath(curr, others[i]);
      CommonPathSymmetric(curr, others[i]);
      assert others[..i + 1][..i] == others[..i];
      if |next| > |best| {
        best := next;
      }
    }
    assert others[..|others|] == others;
    var entry := Collapse(curr, best, target, knownDirs);
    made := Made(Some(best), entry);
  }

  /** `e` is the directory of the file at `rel` and lists that file last. */
  ghost predicate EntryOf(e: Entry, rel: string)
  {
    && e.relative == GetPath(rel)
    && |e.files| >= 1
    && e.files[|e.files| - 1] == EntryFile(GetFilename(rel), rel)
  }

  /**
   * The entry made for a file is its directory and lists the file last.
   * When an entry for that directory exists, the first one is extended and
   * no agreement is returned; otherwise the agreement is the first longest
   * one with any other path.
   */
  lemma MadeEntryShape(target: string, files: seq<string>, knownDirs: seq<seq<string>>, entries: seq<Entry>)
    ensures EntryOf(MadeEntry(target, files, knownDirs, entries).entry, target)
    ensures MadeEntry(target, files, knownDirs, entries).best.None?
        <==> exists k :: 0 <= k < |entries| && entries[k].relative == GetPath(target)
    ensures var m := MadeEntry(target, files, knownDirs, entries);
            m.best.None? ==> var s := FindSibling(entries, GetPath(target)).value;
                             m.entry == entries[s].(files := entries[s].files + [EntryFile(GetFilename(target), target)])
    ensures var m := MadeEntry(target, files, knownDirs, entries);
            m.best.Some? ==> m.best.value == FirstLongest(Others(files, target), Split(target))
  {
    if FindSibling(entries, GetPath(target)).None? {
      CollapsedShape(target, FirstLongest(Others(files, target), Split(target)), knownDirs);
    }
  }

  lemma MadeEntryOf(target: string, files: seq<string>, knownDirs: seq<seq<string>>, entries: seq<Entry>)
    ensures EntryOf(MadeEntry(target, files, knownDirs, entries).entry, target)
  {
    MadeEntryShape(target, files, knownDirs, entries);
  }

  // ---------------------------------------------------------------- first pass

  datatype Built = Built(entries: seq<Entry>, dirs: seq<seq<string>>)

  /** `entries` and `dirs` after the first `n` paths of the first loop. */
  function BuiltAfter(files: seq<string>, n: nat): (b: Built)
    requires n <= |files|
    ensures |b.entries| == n
  {
    if n == 0 then Built([], [])
    else
      var prev := BuiltAfter(files, n - 1);
      var made := MadeEntry(files[n - 1], files, prev.dirs, prev.entries);
      Built(prev.entries + [made.entry], prev.dirs + (if made.best.Some? then [made.best.value] else []))
  }

  /**
   * The first loop of `deriveTree`: one entry per path, in order, each the
   * directory of its path and listing that path last.
   */
  method BuildEntries(files: seq<string>) returns (entries: seq<Entry>, dirs: seq<seq<string>>)
    ensures Built(entries, dirs) == BuiltAfter(files, |files|)
    ensures forall i :: 0 <= i < |files| ==> EntryOf(entries[i], files[i])
  {
    entries, dirs := [], [];
    for i := 0 to |files|
      invariant Built(entries, dirs) == BuiltAfter(files, i)
      invariant forall j :: 0 <= j < i ==> EntryOf(entries[j], files[j])
    {
      entries, dirs := AddEntry(files, i, entries, dirs);
    }
  }

  /** One step of the first loop: make the entry of path `i` and record its agreement. */
  method AddEntry(files: seq<string>, i: nat, entries: seq<Entry>, dirs: seq<seq<string>>)
    returns (entries': seq<Entry>, dirs': seq<seq<string>>)
    requires i < |files| && Built(entries, dirs) == BuiltAfter(files, i)
    requires forall j :: 0 <= j < i ==> EntryOf(entries[j], files[j])
    ensures Built(entries', dirs') == BuiltAfter(files, i + 1)
    ensures forall j :: 0 <= j <= i ==> EntryOf(entries'[j], files[j])
  {
    var made := MakeEntry(files[i], files, dirs, entries);
    MadeEntryOf(files[i], files, dirs, entries);
    entries' := entries + [made.entry];
    dirs' := dirs;
    if made.best.Some? {
      dirs' := dirs + [made.best.value];
    }
    forall j | 0 <= j <= i
      ensures EntryOf(entries'[j], files[j])
    {
      if j < i {
        assert entries'[j] == entries[j];
      }
    }
  }

  // ---------------------------------------------------------------- sorting by segment count

  /** "May come before" under the in-place sort: no more "/"-segments than the other. */
  function FewerSegments(x: string, y: string): bool
  {
    SegmentCount(x) <= SegmentCount(y)
  }

  /**
   * Sorting by segment count is sorting by a total preorder, and in paths so
   * sorted the comparator never puts a later path before an earlier one.
   */
  lemma SegmentOrder(s: seq<string>)
    ensures TotalPreorder(FewerSegments)
    ensures SortedBy(s, FewerSegments) ==>
      forall i, j :: 0 <= i < j < |s| ==> !(SegmentCount(s[j]) < SegmentCount(s[i]))
  {
  }

  // ---------------------------------------------------------------- nodes

  datatype Item = Item(displayName: string, highlight: seq<int>, relative: string)

  datatype Node = Node(displayName: string, highlight: seq<int>, relative: string, files: seq<Item>)

  /** The root node: shown as "/", at "/", with nothing highlighted. */
  const Root := Node("/", [], "/", [])

  /** The file items of a node: every entry file, with nothing highlighted. */
  function ItemsOf(files: seq<EntryFile>): (r: seq<Item>)
    ensures |r| == |files|
    ensures forall i :: 0 <= i < |r| ==> r[i] == Item(files[i].name, [], files[i].relative)
  {
    seq(|files|, i requires 0 <= i < |files| => Item(files[i].name, [], files[i].relative))
  }

  /** The file comparator: `y.displayName.localeCompare(x.displayName) > 0 ? 1 : -1`. */
  function FileOrder(x: Item, y: Item): int
  {
    if LocaleCompare(y.displayName, x.displayName) > 0 then 1 else -1
  }

  /** "May come before" for the file sort: a name not below the other's. */
  function NameNotBelow(x: Item, y: Item): bool
  {
    LexLeq(y.displayName, x.displayName)
  }

  /**
   * The file order is a total preorder, and in files so sorted, descending
   * by name, the comparator puts every earlier file before every later one.
   */
  lemma FileOrderShape(s: seq<Item>)
    ensures TotalPreorder(NameNotBelow)
    ensures SortedBy(s, NameNotBelow) ==>
      forall i, j :: 0 <= i < j < |s| ==> FileOrder(s[i], s[j]) == -1
  {
    forall x: Item, y: Item
      ensures NameNotBelow(x, y) || NameNotBelow(y, x)
    {
      LexTotal(x.displayName, y.displayName);
    }
    forall x: Item, y: Item, z: Item | NameNotBelow(x, y) && NameNotBelow(y, z)
      ensures NameNotBelow(x, z)
    {
      LexTransitive(z.displayName, y.displayName, x.displayName);
    }
    if SortedBy(s, NameNotBelow) {
      forall i, j | 0 <= i < j < |s|
        ensures FileOrder(s[i], s[j]) == -1
      {
        LexAntisymmetric(s[i].displayName, s[j].displayName);
      }
    }
  }

  /** The `relative` of every entry, in order: the keys `dirmap.set` is called with. */
  function Keys(entries: seq<Entry>): (keys: seq<string>)
    ensures |keys| == |entries| && forall k :: 0 <= k < |keys| ==> keys[k] == entries[k].relative
  {
    seq(|entries|, k requires 0 <= k < |entries| => entries[k].relative)
  }

  /**
   * The parent picked for entry `k`: the root when its name is its whole
   * path, otherwise whatever `dirmap` holds under its `parent` at that time
   * (`None` for a miss, which `!` does not prevent).
   */
  function ParentFor(entries: seq<Entry>, k: nat): Option<nat>
    requires k < |entries|
  {
    var e := entries[k];
    if e.relative == e.name then Some(0)
    else
      var dirmap := DirmapAfter(Keys(entries), k);
      if e.parent in dirmap then Some(dirmap[e.parent]) else None
  }

  /**
   * Node `k + 1` is the node made for entry `k`: its parent, its name and
   * path, no highlight, and its files sorted by descending name.
   */
  ghost predicate NodeFor(slots: seq<Slot<Node>>, entries: seq<Entry>, k: nat)
    requires k < |entries|
  {
    && ParentsEarlier(slots) && k + 1 < |slots|
    && var e, slot := entries[k], slots[k + 1];
    && slot.parent == ParentFor(entries, k)
    && slot.directories == []
    && slot.payload.displayName == e.name
    && slot.payload.highlight == []
    && slot.payload.relative == e.originalRelative
    && SortedBy(slot.payload.files, NameNotBelow)
    && multiset(slot.payload.files) == multiset(ItemsOf(e.files))
  }

  /**
   * The second loop of `deriveTree`: a node per entry after the root, each
   * hung from the parent `dirmap` gives it, and `dirmap` with its keys in
   * first-insertion order.
   */
  method BuildNodes(entries: seq<Entry>)
    returns (slots: seq<Slot<Node>>, dirmap: map<string, nat>, keyOrder: seq<string>)
    ensures |slots| == |entries| + 1 && slots[0] == Slot(Root, None, [])
    ensures ParentsEarlier(slots) && ChildrenAfter(slots)
    ensures forall k :: 0 <= k < |entries| ==> NodeFor(slots, entries, k)
    ensures dirmap == DirmapAfter(Keys(entries), |entries|)
    ensures keyOrder == KeyOrder(Keys(entries), |entries|)
  {
    slots, dirmap, keyOrder := [Slot(Root, None, [])], map[], [];
    for k := 0 to |entries|
      invariant NodesUpTo(slots, entries, k)
      invariant dirmap == DirmapAfter(Keys(entries), k) && keyOrder == KeyOrder(Keys(entries), k)
    {
      var slot := MakeNode(entries, k, slots, dirmap);
      NodesStep(slots, slot, entries, k);
      slots := slots + [slot];
      var e := entries[k];
      if e.relative !in dirmap {
        keyOrder := keyOrder + [e.relative];
      }
      dirmap := dirmap[e.relative := k + 1];
    }
  }

  /** One step of the second loop: the node for entry `k`. */
  method MakeNode(entries: seq<Entry>, k: nat, slots: seq<Slot<Node>>, dirmap: map<string, nat>)
    returns (slot: Slot<Node>)
    requires k < |entries| && |slots| == k + 1 && ParentsEarlier(slots)
    requires dirmap == DirmapAfter(Keys(entries), k)
    ensures ParentsEarlier(slots + [slot]) && slot.directories == []
    ensures NodeFor(slots + [slot], entries, k)
  {
    FileOrderShape([]);
    var e := entries[k];
    DirmapValues(Keys(entries), k);
    var parent: Option<nat> :=
      if e.relative == e.name then Some(0)
      else if e.parent in dirmap then Some(dirmap[e.parent])
      else None;
    var files := SortSeq(ItemsOf(e.files), NameNotBelow);
    slot := Slot(Node(e.name, [], e.originalRelative, files), parent, []);
    ParentsEarlierAppend(slots, slot);
  }

  /** After `k` steps of the second loop: the root and one childless node per entry so far. */
  ghost predicate NodesUpTo(slots: seq<Slot<Node>>, entries: seq<Entry>, k: nat)
    requires k <= |entries|
  {
    && |slots| == k + 1 && slots[0] == Slot(Root, None, [])
    && ParentsEarlier(slots)
    && (forall j :: 0 <= j < |slots| ==> slots[j].directories == [])
    && forall j :: 0 <= j < k ==> NodeFor(slots, entries, j)
  }

  lemma NodesStep(slots: seq<Slot<Node>>, slot: Slot<Node>, entries: seq<Entry>, k: nat)
    requires k < |entries| && NodesUpTo(slots, entries, k)
    requires ParentsEarlier(slots + [slot]) && slot.directories == []
    requires NodeFor(slots + [slot], entries, k)
    ensures NodesUpTo(slots + [slot], entries, k + 1)
  {
    NodesKept(slots, slot, entries, k);
  }

  /** Creating a node keeps what holds of the nodes before it. */
  lemma NodesKept(slots: seq<Slot<Node>>, slot: Slot<Node>, entries: seq<Entry>, k: nat)
    requires k < |entries| && |slots| == k + 1 && ParentsEarlier(slots) && ParentsEarlier(slots + [slot])
    requires forall j :: 0 <= j < k ==> NodeFor(slots, entries, j)
    ensures forall j :: 0 <= j < k ==> NodeFor(slots + [slot], entries, j)
  {
    forall j | 0 <= j < k
      ensures NodeFor(slots + [slot], entries, j)
    {
      assert NodeFor(slots, entries, j);
      assert (slots + [slot])[j + 1] == slots[j + 1];
    }
  }

  // ---------------------------------------------------------------- linking and the root

  /** A node as the second loop built it: nothing highlighted, files by descending name. */
  ghost predicate ShownAsBuilt(d: Node)
  {
    && d.highlight == []
    && SortedBy(d.files, NameNotBelow)
    && forall f :: f in d.files ==> f.highlight == []
  }

  /** Some node `dirmap` ends with has no parent, so the last loop throws. */
  ghost predicate Unlinked(entries: seq<Entry>)
  {
    exists k :: 0 <= k < |entries| && entries[k].relative in DirmapAfter(Keys(entries), |entries|)
      && DirmapAfter(Keys(entries), |entries|)[entries[k].relative] == k + 1
      && ParentFor(entries, k).None?
  }

  lemma NodeParent(slots: seq<Slot<Node>>, entries: seq<Entry>, k: nat)
    requires k < |entries| && NodeFor(slots, entries, k)
    ensures k + 1 < |slots| && slots[k + 1].parent == ParentFor(entries, k)
  {
  }

  /** Node `k + 1` is listed by `dirmap.values()` without a parent exactly when entry `k` is unlinked. */
  lemma UnlinkedAt(slots: seq<Slot<Node>>, entries: seq<Entry>, k: nat)
    requires k < |entries| && NodeFor(slots, entries, k)
    ensures k + 1 < |slots|
    ensures (k + 1 in NodeOrder(Keys(entries)) && slots[k + 1].parent.None?) <==>
      (entries[k].relative in DirmapAfter(Keys(entries), |entries|)
       && DirmapAfter(Keys(entries), |entries|)[entries[k].relative] == k + 1
       && ParentFor(entries, k).None?)
  {
    NodeListedAt(Keys(entries), k);
    NodeParent(slots, entries, k);
  }

  /** Which nodes the last loop fails on: exactly those of `Unlinked`. */
  lemma UnlinkedIff(slots: seq<Slot<Node>>, entries: seq<Entry>)
    requires |slots| == |entries| + 1
    requires forall k :: 0 <= k < |entries| ==> NodeFor(slots, entries, k)
    ensures forall i :: 0 <= i < |NodeOrder(Keys(entries))| ==> NodeOrder(Keys(entries))[i] < |slots|
    ensures Distinct(NodeOrder(Keys(entries)))
    ensures (exists i :: 0 <= i < |NodeOrder(Keys(entries))| && slots[NodeOrder(Keys(entries))[i]].parent.None?)
            <==> Unlinked(entries)
  {
    var keys, order := Keys(entries), NodeOrder(Keys(entries));
    NodeOrderBounds(keys);
    NodeOrderDistinct(keys);
    if exists i :: 0 <= i < |order| && slots[order[i]].parent.None? {
      var i :| 0 <= i < |order| && slots[order[i]].parent.None?;
      UnlinkedAt(slots, entries, order[i] - 1);
    }
    if Unlinked(entries) {
      var k :| 0 <= k < |entries| && entries[k].relative in DirmapAfter(keys, |entries|)
        && DirmapAfter(keys, |entries|)[entries[k].relative] == k + 1 && ParentFor(entries, k).None?;
      UnlinkedAt(slots, entries, k);
    }
  }

  /** The linked arena, read from the root: the root's own record, and every node below as built. */
  lemma LinkedTree(slots: seq<Slot<Node>>, entries: seq<Entry>, linked: seq<Slot<Node>>)
    requires |slots| == |entries| + 1 && slots[0] == Slot(Root, None, [])
    requires forall k :: 0 <= k < |entries| ==> NodeFor(slots, entries, k)
    requires |linked| == |slots| && ChildrenAfter(linked)
    requires forall j :: 0 <= j < |slots| ==> linked[j].payload == slots[j].payload
    ensures Materialize(linked, 0).payload == Root
    ensures AllBelow(Materialize(linked, 0), ShownAsBuilt)
  {
    forall j | 0 < j < |slots|
      ensures ShownAsBuilt(linked[j].payload)
    {
      assert NodeFor(slots, entries, j - 1);
      var d := linked[j].payload;
      forall f | f in d.files
        ensures f.highlight == []
      {
        assert f in multiset(ItemsOf(entries[j - 1].files));
      }
    }
    MaterializeAllBelow(linked, 0, ShownAsBuilt);
  }

  /**
   * From the entries on: a node per entry, then every node `dirmap` ends
   * with linked into its parent, and the root (`None` when that throws).
   */
  method Link(entries: seq<Entry>) returns (tree: Option<Tree<Node>>, ghost slots: seq<Slot<Node>>)
    ensures |slots| == |entries| + 1 && slots[0] == Slot(Root, None, [])
    ensures ParentsEarlier(slots) && ChildrenAfter(slots)
    ensures forall k :: 0 <= k < |entries| ==> NodeFor(slots, entries, k)
    ensures ChildrenAfter(Linked(slots, NodeOrder(Keys(entries))))
    ensures tree.None? <==> Unlinked(entries)
    ensures tree.Some? ==> tree.value == Materialize(Linked(slots, NodeOrder(Keys(entries))), 0)
    ensures tree.Some? ==> tree.value.payload == Root && AllBelow(tree.value, ShownAsBuilt)
  {
    var made, dirmap, keyOrder := BuildNodes(entries);
    var order := Values(Keys(entries), dirmap, keyOrder);
    UnlinkedIff(made, entries);
    LinkedChildrenAfter(made, order);
    slots := made;
    var linked := LinkChildren(made, order);
    if linked.None? {
      tree := None;
      return;
    }
    LinkedTree(made, entries, linked.value);
    tree := Some(Materialize(linked.value, 0));
  }

  /**
   * `deriveTree(files)`: sort the caller's array in place by segment count,
   * make the entries, make and link the nodes, and return the root. The
   * ghost output is the entries.
   */
  method DeriveTree(files: array<string>)
    returns (tree: Option<Tree<Node>>, ghost entries: seq<Entry>, ghost slots: seq<Slot<Node>>)
    modifies files
    ensures SortedBy(files[..], FewerSegments)
    ensures multiset(files[..]) == multiset(old(files[..]))
    ensures entries == BuiltAfter(files[..], files.Length).entries
    ensures forall i :: 0 <= i < files.Length ==> EntryOf(entries[i], files[i])
    ensures |slots| == |entries| + 1 && slots[0] == Slot(Root, None, [])
    ensures ParentsEarlier(slots) && ChildrenAfter(slots)
    ensures forall k :: 0 <= k < |entries| ==> NodeFor(slots, entries, k)
    ensures ChildrenAfter(Linked(slots, NodeOrder(Keys(entries))))
    ensures tree.None? <==> Unlinked(entries)
    ensures tree.Some? ==> tree.value == Materialize(Linked(slots, NodeOrder(Keys(entries))), 0)
    ensures tree.Some? ==> tree.value.payload == Root && AllBelow(tree.value, ShownAsBuilt)
  {
    SegmentOrder([]);
    InsertionSort(files, FewerSegments);
    var sorted := files[..];
    var es, dirs := BuildEntries(sorted);
    tree, slots := Link(es);
    entries := es;
  }
}
