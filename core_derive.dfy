/**
 * `deriveTree` of packages/core/src/tree.ts from end to end: the optional
 * `fuzzysort` filter, the sort by segment count, the entry and node passes
 * of CoreTree, and the last loop that links every node into its parent,
 * with what the returned root then promises about the nodes below it.
 */
module CoreDerive {
  import opened Wrappers
  import opened PathHelpers
  import opened Sorting
  import opened DirArena
  import opened FuzzyPrepare
  import opened FuzzyMatch
  import opened FuzzyAlgorithm
  import opened FuzzySort
  import opened CoreTree

  // ---------------------------------------------------------------- the filter

  /** Without a search, every path with no highlight. */
  function PlainFiles(files: seq<string>): (r: seq<FuzzyFile>)
    ensures |r| == |files| && forall i :: 0 <= i < |r| ==> r[i] == FuzzyFile(files[i], [])
  {
    seq(|files|, i requires 0 <= i < |files| => FuzzyFile(files[i], []))
  }

  /** With a search, every `fuzzysort` result with its match indexes. */
  function FromResults(results: seq<FuzzyResult>): (r: seq<FuzzyFile>)
    ensures |r| == |results|
    ensures forall i :: 0 <= i < |r| ==> r[i] == FuzzyFile(results[i].target, results[i].indexes)
  {
    seq(|results|, i requires 0 <= i < |results| => FuzzyFile(results[i].target, results[i].indexes))
  }

  /** `f` is one of `files`, highlighted where the query matches it. */
  ghost predicate MatchedFile(search: string, files: seq<string>, f: FuzzyFile)
  {
    (exists i :: 0 <= i < |files| && files[i] == f.relative)
    && Embedding(f.indexes, QueryCodes(search), Codes(LowerString(f.relative)))
  }

  /** Mapping ranked matches to highlighted paths distributes over concatenation. */
  lemma ResultsConcat(s: seq<Scored>, t: seq<Scored>)
    ensures multiset(FromResults(AsResults(s + t)))
         == multiset(FromResults(AsResults(s))) + multiset(FromResults(AsResults(t)))
  {
    assert FromResults(AsResults(s + t)) == FromResults(AsResults(s)) + FromResults(AsResults(t));
  }

  /** Taking the same match out of two permutations of each other leaves permutations. */
  lemma RemoveMatch(a: seq<Scored>, b: seq<Scored>, j: nat)
    requires multiset(a) == multiset(b) && a != [] && j < |b| && b[j] == a[0]
    ensures multiset(a[1..]) == multiset(b[..j]) + multiset(b[j + 1..])
  {
    assert a == [a[0]] + a[1..];
    assert b == b[..j] + [b[j]] + b[j + 1..];
    forall z
      ensures multiset(a[1..])[z] == (multiset(b[..j]) + multiset(b[j + 1..]))[z]
    {
      assert multiset(a)[z] == multiset([a[0]])[z] + multiset(a[1..])[z];
      assert multiset(b)[z] == multiset(b[..j])[z] + multiset([b[j]])[z] + multiset(b[j + 1..])[z];
    }
  }

  /** The highlighted paths of two lists of matches, split around the match `b[j] == a[0]`. */
  lemma ResultsSplit(a: seq<Scored>, b: seq<Scored>, j: nat)
    requires a != [] && j < |b|
    ensures multiset(FromResults(AsResults(a)))
         == multiset(FromResults(AsResults([a[0]]))) + multiset(FromResults(AsResults(a[1..])))
    ensures multiset(FromResults(AsResults(b)))
         == multiset(FromResults(AsResults(b[..j]))) + multiset(FromResults(AsResults([b[j]])))
          + multiset(FromResults(AsResults(b[j + 1..])))
    ensures multiset(FromResults(AsResults(b[..j] + b[j + 1..])))
         == multiset(FromResults(AsResults(b[..j]))) + multiset(FromResults(AsResults(b[j + 1..])))
  {
    assert a == [a[0]] + a[1..];
    ResultsConcat([a[0]], a[1..]);
    assert b == b[..j] + ([b[j]] + b[j + 1..]);
    ResultsConcat(b[..j], [b[j]] + b[j + 1..]);
    ResultsConcat([b[j]], b[j + 1..]);
    ResultsConcat(b[..j], b[j + 1..]);
  }

  /** Mapping ranked matches to highlighted paths respects permutation. */
  lemma {:induction false} ResultsPermutation(a: seq<Scored>, b: seq<Scored>)
    requires multiset(a) == multiset(b)
    ensures multiset(FromResults(AsResults(a))) == multiset(FromResults(AsResults(b)))
    decreases |a|
  {
    if a == [] {
      assert b == [];
    } else {
      assert a[0] in multiset(b);
      var j :| 0 <= j < |b| && b[j] == a[0];
      RemoveMatch(a, b, j);
      assert multiset(a[1..]) == multiset(b[..j] + b[j + 1..]);
      ResultsPermutation(a[1..], b[..j] + b[j + 1..]);
      ResultsSplit(a, b, j);
    }
  }

  /**
   * `options.search ? fuzzysort(options.search, files) : files`, mapped to
   * paths with highlight indexes: an empty search keeps every path.
   */
  method Filter(caches: Caches, files: seq<string>, search: string)
    returns (pre: seq<FuzzyFile>, ghost outcomes: seq<Option<Scored>>)
    requires caches.Valid()
    modifies caches.Repr
    ensures caches.Valid() && fresh(caches.Repr - old(caches.Repr))
    ensures search == "" ==> pre == PlainFiles(files)
    ensures search != "" ==> forall f :: f in pre ==> MatchedFile(search, files, f)
    ensures search != "" ==> |outcomes| == |files|
    ensures search != "" ==> forall i :: 0 <= i < |files| ==> OutcomeFor(search, files[i], outcomes[i])
    ensures search != "" && |files| < MAX_SAFE_INTEGER ==>
      multiset(pre) == multiset(FromResults(AsResults(Passing(outcomes, EffectiveThreshold(Options(None, None))))))
  {
    if search == "" {
      return PlainFiles(files), [];
    }
    var options := Options(None, None);
    var results;
    ghost var ranked, dropped;
    results, outcomes, ranked, dropped := FuzzySort.FuzzySort(caches, search, files, options);
    pre := FromResults(results[..]);
    var passing := Passing(outcomes, EffectiveThreshold(options));
    if |files| < MAX_SAFE_INTEGER {
      PassingLength(outcomes, EffectiveThreshold(options));
      assert |multiset(dropped)| == 0;
      assert dropped == [];
      ResultsPermutation(ranked, passing);
    }
    PassingMembers(outcomes, EffectiveThreshold(options));
    forall f | f in pre
      ensures MatchedFile(search, files, f)
    {
      var k :| 0 <= k < |pre| && pre[k] == f;
      var r := ranked[k];
      assert r in multiset(ranked);
      assert r in multiset(Passing(outcomes, EffectiveThreshold(options)));
      var i :| 0 <= i < |outcomes| && outcomes[i] == Some(r);
      assert OutcomeFor(search, files[i], outcomes[i]);
    }
  }

  // ---------------------------------------------------------------- what the root promises

  /** Every node below the top is `d` levels down: children at `d`, theirs at `d + 1`. */
  ghost predicate DepthsFrom(t: Tree<DirInfo>, d: nat)
    decreases t
  {
    forall k :: 0 <= k < |t.directories| ==>
      t.directories[k].payload.depth == d && DepthsFrom(t.directories[k], d + 1)
  }

  /**
   * A node as the second loop built it: expanded unless its directory is in
   * `collapsed`, files by descending name, every file at the node's depth.
   */
  ghost predicate ShownAsBuilt(collapsed: set<string>, d: DirInfo)
  {
    && d.expanded == (GetPath(d.relative) !in collapsed)
    && SortedBy(d.files, NameNotBelow)
    && forall f :: f in d.files ==> f.depth == d.depth
  }

  /** Some node `dirmap` ends with has no parent, so the last loop throws. */
  ghost predicate Unlinked(entries: seq<Entry>)
  {
    exists k :: 0 <= k < |entries| && entries[k].relative in DirmapAfter(Keys(entries), |entries|)
      && DirmapAfter(Keys(entries), |entries|)[entries[k].relative] == k + 1
      && ParentFor(entries, k).None?
  }

  /**
   * Below a linked node, a child sits one `parent` link further down than
   * its parent, so depths count levels from the top.
   */
  lemma {:induction false} MaterializedDepths(slots: seq<Slot<DirInfo>>, linked: seq<Slot<DirInfo>>, i: nat)
    requires ParentsEarlier(slots) && ChildrenAfter(linked) && |linked| == |slots| && i < |slots|
    requires forall j, k :: 0 <= j < |linked| && 0 <= k < |linked[j].directories| ==>
      slots[linked[j].directories[k]].parent == Some(j)
    requires forall j :: 0 < j < |slots| ==> linked[j].payload.depth == Hops(slots, slots[j].parent)
    ensures DepthsFrom(Materialize(linked, i), Hops(slots, Some(i)))
    decreases |linked| - i
  {
    var t := Materialize(linked, i);
    forall k | 0 <= k < |t.directories|
      ensures t.directories[k].payload.depth == Hops(slots, Some(i))
      ensures DepthsFrom(t.directories[k], Hops(slots, Some(i)) + 1)
    {
      var c := linked[i].directories[k];
      assert t.directories[k] == Materialize(linked, c);
      MaterializedDepths(slots, linked, c);
    }
  }

  /** Which nodes the last loop fails on: exactly those of `Unlinked`. */
  lemma UnlinkedIff(slots: seq<Slot<DirInfo>>, entries: seq<Entry>, collapsed: set<string>)
    requires |slots| == |entries| + 1
    requires forall k :: 0 <= k < |entries| ==> NodeFor(slots, entries, k, collapsed)
    ensures forall i :: 0 <= i < |NodeOrder(Keys(entries))| ==> NodeOrder(Keys(entries))[i] < |slots|
    ensures Distinct(NodeOrder(Keys(entries)))
    ensures (exists i :: 0 <= i < |NodeOrder(Keys(entries))| && slots[NodeOrder(Keys(entries))[i]].parent.None?)
            <==> Unlinked(entries)
  {
    var keys, order := Keys(entries), NodeOrder(Keys(entries));
    NodeOrderBounds(keys);
    NodeOrderDistinct(keys);
    if exists i :: 0 <= i < |order| && slots[order[i]].parent.None? {
      var i :| 0 <= i < |order| && slots[order[i]].parent.None?;
      UnlinkedAt(slots, entries, collapsed, order[i] - 1);
    }
    if Unlinked(entries) {
      var k :| 0 <= k < |entries| && entries[k].relative in DirmapAfter(keys, |entries|)
        && DirmapAfter(keys, |entries|)[entries[k].relative] == k + 1 && ParentFor(entries, k).None?;
      UnlinkedAt(slots, entries, collapsed, k);
    }
  }

  /** Node `k + 1` is listed by `dirmap.values()` without a parent exactly when entry `k` is unlinked. */
  lemma UnlinkedAt(slots: seq<Slot<DirInfo>>, entries: seq<Entry>, collapsed: set<string>, k: nat)
    requires k < |entries| && NodeFor(slots, entries, k, collapsed)
    ensures k + 1 < |slots|
    ensures (k + 1 in NodeOrder(Keys(entries)) && slots[k + 1].parent.None?) <==>
      (entries[k].relative in DirmapAfter(Keys(entries), |entries|)
       && DirmapAfter(Keys(entries), |entries|)[entries[k].relative] == k + 1
       && ParentFor(entries, k).None?)
  {
    NodeListedAt(Keys(entries), k);
    NodeParent(slots, entries, k, collapsed);
  }

  lemma NodeParent(slots: seq<Slot<DirInfo>>, entries: seq<Entry>, k: nat, collapsed: set<string>)
    requires k < |entries| && NodeFor(slots, entries, k, collapsed)
    ensures k + 1 < |slots| && slots[k + 1].parent == ParentFor(entries, k)
  {
  }

  /**
   * The linked arena, read from the root: the root's own record, depths that
   * count levels, and every node below as the second loop built it.
   */
  lemma LinkedTree(slots: seq<Slot<DirInfo>>, entries: seq<Entry>, collapsed: set<string>,
                   linked: seq<Slot<DirInfo>>)
    requires |slots| == |entries| + 1 && slots[0] == Slot(Root, None, [])
    requires ParentsEarlier(slots) && ChildrenAfter(slots)
    requires forall k :: 0 <= k < |entries| ==> NodeFor(slots, entries, k, collapsed)
    requires linked == Linked(slots, NodeOrder(Keys(entries))) && ChildrenAfter(linked)
    ensures Materialize(linked, 0).payload == Root
    ensures DepthsFrom(Materialize(linked, 0), 0)
    ensures AllBelow(Materialize(linked, 0), d => ShownAsBuilt(collapsed, d))
  {
    var order := NodeOrder(Keys(entries));
    forall j, k | 0 <= j < |linked| && 0 <= k < |linked[j].directories|
      ensures slots[linked[j].directories[k]].parent == Some(j)
    {
      if j > 0 {
        assert NodeFor(slots, entries, j - 1, collapsed);
      }
      ChildrenOfMembers(slots, order, j);
      assert linked[j].directories[k] in ChildrenOf(slots, order, j);
    }
    forall j | 0 < j < |slots|
      ensures linked[j].payload.depth == Hops(slots, slots[j].parent)
      ensures ShownAsBuilt(collapsed, linked[j].payload)
    {
      assert NodeFor(slots, entries, j - 1, collapsed);
      var d := linked[j].payload;
      var items := ItemsOf(entries[j - 1].files, d.depth);
      forall f | f in d.files
        ensures f.depth == d.depth
      {
        assert f in multiset(items);
      }
    }
    MaterializedDepths(slots, linked, 0);
    MaterializeAllBelow(linked, 0, d => ShownAsBuilt(collapsed, d));
  }

  // ---------------------------------------------------------------- deriveTree

  /** The paths `deriveTree` works on: filtered, then sorted by segment count. */
  method SortedFiles(caches: Caches, files: seq<string>, search: string)
    returns (filtered: seq<FuzzyFile>, ghost outcomes: seq<Option<Scored>>)
    requires caches.Valid()
    modifies caches.Repr
    ensures caches.Valid() && fresh(caches.Repr - old(caches.Repr))
    ensures search == "" ==> multiset(filtered) == multiset(PlainFiles(files))
    ensures search != "" ==> forall f :: f in filtered ==> MatchedFile(search, files, f)
    ensures search != "" ==> |outcomes| == |files|
    ensures search != "" ==> forall i :: 0 <= i < |files| ==> OutcomeFor(search, files[i], outcomes[i])
    ensures search != "" && |files| < MAX_SAFE_INTEGER ==>
      multiset(filtered) == multiset(FromResults(AsResults(Passing(outcomes, EffectiveThreshold(Options(None, None))))))
    ensures SortedBy(filtered, FewerSegments)
  {
    var pre;
    pre, outcomes := Filter(caches, files, search);
    SegmentOrder([]);
    filtered := SortSeq(pre, FewerSegments);
    if search != "" {
      forall f | f in filtered
        ensures MatchedFile(search, files, f)
      {
        assert f in multiset(pre);
      }
    }
  }

  /**
   * From the entries on: a node per entry, then every node `dirmap` ends
   * with linked into its parent, and the root (`None` when that throws).
   */
  method Link(entries: seq<Entry>, collapsed: set<string>)
    returns (tree: Option<Tree<DirInfo>>, ghost slots: seq<Slot<DirInfo>>)
    ensures |slots| == |entries| + 1 && slots[0] == Slot(Root, None, [])
    ensures ParentsEarlier(slots) && ChildrenAfter(slots)
    ensures forall k :: 0 <= k < |entries| ==> NodeFor(slots, entries, k, collapsed)
    ensures ChildrenAfter(Linked(slots, NodeOrder(Keys(entries))))
    ensures tree.None? <==> Unlinked(entries)
    ensures tree.Some? ==> tree.value == Materialize(Linked(slots, NodeOrder(Keys(entries))), 0)
    ensures tree.Some? ==> tree.value.payload == Root && DepthsFrom(tree.value, 0)
    ensures tree.Some? ==> AllBelow(tree.value, d => ShownAsBuilt(collapsed, d))
  {
    var made, dirmap, keyOrder := BuildNodes(entries, collapsed);
    var order := Values(Keys(entries), dirmap, keyOrder);
    UnlinkedIff(made, entries, collapsed);
    LinkedChildrenAfter(made, order);
    slots := made;
    var linked := LinkChildren(made, order);
    if linked.None? {
      tree := None;
      return;
    }
    LinkedTree(made, entries, collapsed, linked.value);
    tree := Some(Materialize(linked.value, 0));
  }

  /**
   * `deriveTree(files, { search, collapsed })`: filter, sort by segment
   * count, make the entries, make and link the nodes, and return the root.
   * The ghost outputs are the sorted paths and the entries.
   */
  method DeriveTree(caches: Caches, files: seq<string>, search: string, collapsed: set<string>)
    returns (tree: Option<Tree<DirInfo>>, ghost filtered: seq<FuzzyFile>, ghost entries: seq<Entry>,
             ghost slots: seq<Slot<DirInfo>>, ghost outcomes: seq<Option<Scored>>)
    requires caches.Valid()
    modifies caches.Repr
    ensures caches.Valid() && fresh(caches.Repr - old(caches.Repr))
    ensures search == "" ==> multiset(filtered) == multiset(PlainFiles(files))
    ensures search != "" ==> forall f :: f in filtered ==> MatchedFile(search, files, f)
    ensures search != "" ==> |outcomes| == |files|
    ensures search != "" ==> forall i :: 0 <= i < |files| ==> OutcomeFor(search, files[i], outcomes[i])
    ensures search != "" && |files| < MAX_SAFE_INTEGER ==>
      multiset(filtered) == multiset(FromResults(AsResults(Passing(outcomes, EffectiveThreshold(Options(None, None))))))
    ensures SortedBy(filtered, FewerSegments)
    ensures entries == BuiltAfter(filtered, |filtered|).entries
    ensures |entries| == |filtered|
    ensures forall i :: 0 <= i < |entries| ==> EntryOf(entries[i], filtered[i].relative)
    ensures |slots| == |entries| + 1 && slots[0] == Slot(Root, None, [])
    ensures ParentsEarlier(slots) && ChildrenAfter(slots)
    ensures forall k :: 0 <= k < |entries| ==> NodeFor(slots, entries, k, collapsed)
    ensures ChildrenAfter(Linked(slots, NodeOrder(Keys(entries))))
    ensures tree.None? <==> Unlinked(entries)
    ensures tree.Some? ==> tree.value == Materialize(Linked(slots, NodeOrder(Keys(entries))), 0)
    ensures tree.Some? ==> tree.value.payload == Root && DepthsFrom(tree.value, 0)
    ensures tree.Some? ==> AllBelow(tree.value, d => ShownAsBuilt(collapsed, d))
  {
    var sorted;
    sorted, outcomes := SortedFiles(caches, files, search);
    var es, dirs := BuildEntries(sorted);
    tree, slots := Link(es, collapsed);
    filtered, entries := sorted, es;
  }
}
