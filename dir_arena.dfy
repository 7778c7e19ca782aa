/**
 * The directory nodes both tree builders create, modelled as an arena: node
 * objects become slots of a sequence addressed by position, with the root
 * at position 0 and `parent` references as optional positions (`None` for
 * `undefined`). This module holds what the two builders share: the walk of
 * `getDepth` up the parent links, the insertion-ordered `dirmap`, the last
 * loop that pushes every `dirmap` node into its parent's `directories` and
 * deletes its `parent`, and the nested tree the root then stands for.
 */
module DirArena {
  import opened Wrappers

  datatype Slot<P> = Slot(payload: P, parent: Option<nat>, directories: seq<nat>)

  /** The tree reachable from a node through `directories`. */
  datatype Tree<P> = Tree(payload: P, directories: seq<Tree<P>>)

  /** A node's parent was created before it. */
  ghost predicate ParentsEarlier<P>(slots: seq<Slot<P>>)
  {
    forall k :: 0 <= k < |slots| && slots[k].parent.Some? ==> slots[k].parent.value < k
  }

  /** A node's directories were created after it. */
  ghost predicate ChildrenAfter<P>(slots: seq<Slot<P>>)
  {
    forall j, k :: 0 <= j < |slots| && 0 <= k < |slots[j].directories| ==>
      j < slots[j].directories[k] < |slots|
  }

  // ---------------------------------------------------------------- getDepth

  /** The number of `parent` links above node `n` (none above `undefined`). */
  function Hops<P>(slots: seq<Slot<P>>, n: Option<nat>): nat
    requires ParentsEarlier(slots) && (n.Some? ==> n.value < |slots|)
    decreases if n.Some? then n.value + 1 else 0
  {
    if n.None? then 0
    else match slots[n.value].parent
      case None => 0
      case Some(p) => 1 + Hops(slots, Some(p))
  }

  /** `getDepth(n)`: follows `parent` links until there is none, counting them. */
  method GetDepth<P>(slots: seq<Slot<P>>, n: Option<nat>) returns (i: nat)
    requires ParentsEarlier(slots) && (n.Some? ==> n.value < |slots|)
    ensures i == Hops(slots, n)
    ensures n.Some? && slots[n.value].parent.Some? ==> i == 1 + Hops(slots, slots[n.value].parent)
    ensures n.None? || slots[n.value].parent.None? ==> i == 0
  {
    i := 0;
    var node: Option<nat> := n;
    while node.Some? && slots[node.value].parent.Some?
      invariant node.Some? ==> node.value < |slots|
      invariant i + Hops(slots, node) == Hops(slots, n)
      decreases if node.Some? then node.value + 1 else 0
    {
      node := slots[node.value].parent;
      i := i + 1;
    }
  }

  /** A node whose parent exists can be created. */
  lemma ParentsEarlierAppend<P>(slots: seq<Slot<P>>, x: Slot<P>)
    requires ParentsEarlier(slots) && (x.parent.Some? ==> x.parent.value < |slots|)
    ensures ParentsEarlier(slots + [x])
  {
    forall k | 0 <= k < |slots| + 1 && (slots + [x])[k].parent.Some?
      ensures (slots + [x])[k].parent.value < k
    {
      if k < |slots| {
        assert (slots + [x])[k] == slots[k];
      }
    }
  }

  /** Creating a node does not change the depth of the nodes before it. */
  lemma {:induction false} HopsAppend<P>(slots: seq<Slot<P>>, x: Slot<P>, n: Option<nat>)
    requires ParentsEarlier(slots) && ParentsEarlier(slots + [x])
    requires n.Some? ==> n.value < |slots|
    ensures Hops(slots + [x], n) == Hops(slots, n)
    decreases if n.Some? then n.value + 1 else 0
  {
    if n.Some? {
      assert (slots + [x])[n.value] == slots[n.value];
      if slots[n.value].parent.Some? {
        HopsAppend(slots, x, slots[n.value].parent);
      }
    }
  }

  // ---------------------------------------------------------------- dirmap

  /**
   * `dirmap` after `set(keys[t], node t + 1)` for every `t < k`: a key maps
   * to the node of its last `set`.
   */
  function DirmapAfter(keys: seq<string>, k: nat): map<string, nat>
    requires k <= |keys|
  {
    if k == 0 then map[] else DirmapAfter(keys, k - 1)[keys[k - 1] := k]
  }

  /** The keys of `DirmapAfter(keys, k)` in the order they were first set. */
  function KeyOrder(keys: seq<string>, k: nat): seq<string>
    requires k <= |keys|
  {
    if k == 0 then []
    else
      var prev := KeyOrder(keys, k - 1);
      if keys[k - 1] in DirmapAfter(keys, k - 1) then prev else prev + [keys[k - 1]]
  }

  ghost predicate Distinct<T>(s: seq<T>)
  {
    forall a, b :: 0 <= a < b < |s| ==> s[a] != s[b]
  }

  /** Every key set is in the map. */
  lemma {:induction false} DirmapKeys(keys: seq<string>, k: nat)
    requires k <= |keys|
    ensures forall t :: 0 <= t < k ==> keys[t] in DirmapAfter(keys, k)
  {
    if k > 0 {
      DirmapKeys(keys, k - 1);
    }
  }

  /** The key order lists the keys of the map, each once. */
  lemma {:induction false} KeyOrderShape(keys: seq<string>, k: nat)
    requires k <= |keys|
    ensures forall key :: key in DirmapAfter(keys, k) <==> key in KeyOrder(keys, k)
    ensures Distinct(KeyOrder(keys, k))
  {
    if k > 0 {
      KeyOrderShape(keys, k - 1);
      var prev := KeyOrder(keys, k - 1);
      if keys[k - 1] !in DirmapAfter(keys, k - 1) {
        assert KeyOrder(keys, k) == prev + [keys[k - 1]];
        assert keys[k - 1] !in prev;
      }
    }
  }

  /** A key maps to a node made by a `set` of that key. */
  lemma {:induction false} DirmapValues(keys: seq<string>, k: nat)
    requires k <= |keys|
    ensures forall key :: key in DirmapAfter(keys, k) ==>
      1 <= DirmapAfter(keys, k)[key] <= k && keys[DirmapAfter(keys, k)[key] - 1] == key
  {
    if k > 0 {
      DirmapValues(keys, k - 1);
    }
  }

  /** `dirmap.values()`: the nodes in the order their keys were first set. */
  function NodeOrder(keys: seq<string>): (order: seq<nat>)
    ensures |order| == |KeyOrder(keys, |keys|)|
  {
    var m, ko := DirmapAfter(keys, |keys|), KeyOrder(keys, |keys|);
    KeyOrderShape(keys, |keys|);
    seq(|ko|, i requires 0 <= i < |ko| => m[ko[i]])
  }

  /** Iterating `dirmap.values()`, given the map and its keys in insertion order. */
  method Values(keys: seq<string>, dirmap: map<string, nat>, keyOrder: seq<string>) returns (order: seq<nat>)
    requires dirmap == DirmapAfter(keys, |keys|) && keyOrder == KeyOrder(keys, |keys|)
    ensures order == NodeOrder(keys)
  {
    KeyOrderShape(keys, |keys|);
    order := seq(|keyOrder|, i requires 0 <= i < |keyOrder| => dirmap[keyOrder[i]]);
  }

  /** Every node `dirmap` ends with is a created node, never the root. */
  lemma NodeOrderBounds(keys: seq<string>)
    ensures forall i :: 0 <= i < |NodeOrder(keys)| ==> 1 <= NodeOrder(keys)[i] <= |keys|
  {
    var m, ko, order := DirmapAfter(keys, |keys|), KeyOrder(keys, |keys|), NodeOrder(keys);
    forall i | 0 <= i < |order|
      ensures 1 <= order[i] <= |keys|
    {
      assert ko[i] in m by {
        KeyOrderShape(keys, |keys|);
      }
      DirmapValues(keys, |keys|);
    }
  }

  /** Every node `dirmap` ends with is listed once. */
  lemma NodeOrderDistinct(keys: seq<string>)
    ensures Distinct(NodeOrder(keys))
  {
    var m, ko, order := DirmapAfter(keys, |keys|), KeyOrder(keys, |keys|), NodeOrder(keys);
    forall a, b | 0 <= a < b < |order|
      ensures order[a] != order[b]
    {
      assert ko[a] in m && ko[b] in m && ko[a] != ko[b] by {
        KeyOrderShape(keys, |keys|);
      }
      DirmapValues(keys, |keys|);
    }
  }

  /** Node `t + 1` is listed exactly when no later `set` overwrote its key. */
  lemma NodeOrderListed(keys: seq<string>)
    ensures forall t :: 0 <= t < |keys| ==>
      keys[t] in DirmapAfter(keys, |keys|) &&
      (t + 1 in NodeOrder(keys) <==> DirmapAfter(keys, |keys|)[keys[t]] == t + 1)
  {
    forall t | 0 <= t < |keys|
      ensures keys[t] in DirmapAfter(keys, |keys|) &&
              (t + 1 in NodeOrder(keys) <==> DirmapAfter(keys, |keys|)[keys[t]] == t + 1)
    {
      NodeListedAt(keys, t);
    }
  }

  lemma NodeListedAt(keys: seq<string>, t: nat)
    requires t < |keys|
    ensures keys[t] in DirmapAfter(keys, |keys|)
    ensures t + 1 in NodeOrder(keys) <==> DirmapAfter(keys, |keys|)[keys[t]] == t + 1
  {
    var m, ko, order := DirmapAfter(keys, |keys|), KeyOrder(keys, |keys|), NodeOrder(keys);
    assert keys[t] in m by {
      DirmapKeys(keys, |keys|);
    }
    if m[keys[t]] == t + 1 {
      assert keys[t] in ko by {
        KeyOrderShape(keys, |keys|);
      }
      var i :| 0 <= i < |ko| && ko[i] == keys[t];
      assert order[i] == t + 1;
    }
    if t + 1 in order {
      var i :| 0 <= i < |order| && order[i] == t + 1;
      var key := ko[i];
      assert key in m by {
        KeyOrderShape(keys, |keys|);
      }
      assert m[key] == t + 1;
      DirmapValues(keys, |keys|);
      assert keys[t] == key;
    }
  }

  // ---------------------------------------------------------------- linking

  /** The nodes of `order` whose `parent` is `p`, in that order. */
  function ChildrenOf<P>(slots: seq<Slot<P>>, order: seq<nat>, p: nat): seq<nat>
  {
    if |order| == 0 then []
    else
      var last := order[|order| - 1];
      ChildrenOf(slots, order[..|order| - 1], p)
        + (if last < |slots| && slots[last].parent == Some(p) then [last] else [])
  }

  lemma {:induction false} ChildrenOfMembers<P>(slots: seq<Slot<P>>, order: seq<nat>, p: nat)
    ensures forall c :: c in ChildrenOf(slots, order, p) ==> c in order && c < |slots| && slots[c].parent == Some(p)
  {
    if |order| > 0 {
      ChildrenOfMembers(slots, order[..|order| - 1], p);
    }
  }

  /**
   * The arena once the last loop has handled every node of `order`: those
   * nodes have no `parent` left, and each node's `directories` ends with its
   * children among them, in the order of `order`.
   */
  ghost function Linked<P>(slots: seq<Slot<P>>, order: seq<nat>): seq<Slot<P>>
  {
    seq(|slots|, j requires 0 <= j < |slots| =>
      Slot(slots[j].payload,
           if j in order then None else slots[j].parent,
           slots[j].directories + ChildrenOf(slots, order, j)))
  }

  /** Linking keeps every child after its parent, whatever `order` holds. */
  lemma LinkedChildrenAfter<P>(slots: seq<Slot<P>>, order: seq<nat>)
    requires ParentsEarlier(slots) && ChildrenAfter(slots)
    ensures ChildrenAfter(Linked(slots, order))
  {
    var linked := Linked(slots, order);
    forall j, k | 0 <= j < |linked| && 0 <= k < |linked[j].directories|
      ensures j < linked[j].directories[k] < |linked|
    {
      ChildrenOfMembers(slots, order, j);
      if k >= |slots[j].directories| {
        assert linked[j].directories[k] in ChildrenOf(slots, order, j);
      }
    }
  }

  /**
   * The arena after the last loop has handled `order[..i]`: those nodes have
   * lost their `parent` and sit, in order, in their parents' `directories`.
   */
  ghost predicate LinkedUpTo<P>(slots: seq<Slot<P>>, order: seq<nat>, i: nat, cur: seq<Slot<P>>)
    requires i <= |order| && forall t :: 0 <= t < |order| ==> order[t] < |slots|
  {
    |cur| == |slots| &&
    forall j :: 0 <= j < |slots| ==>
      cur[j] == Slot(slots[j].payload,
                     if j in order[..i] then None else slots[j].parent,
                     slots[j].directories + ChildrenOf(slots, order[..i], j))
  }

  /** Before the last loop, nothing is linked yet. */
  lemma LinkedStart<P>(slots: seq<Slot<P>>, order: seq<nat>)
    requires forall t :: 0 <= t < |order| ==> order[t] < |slots|
    ensures LinkedUpTo(slots, order, 0, slots)
  {
    assert order[..0] == [];
    forall j | 0 <= j < |slots|
      ensures slots[j] == Slot(slots[j].payload, slots[j].parent, slots[j].directories + ChildrenOf(slots, order[..0], j))
    {
      assert slots[j].directories + [] == slots[j].directories;
    }
  }

  /** A node not handled yet still has its own parent. */
  lemma LinkedParent<P>(slots: seq<Slot<P>>, order: seq<nat>, i: nat, cur: seq<Slot<P>>)
    requires Distinct(order) && i < |order| && forall t :: 0 <= t < |order| ==> order[t] < |slots|
    requires LinkedUpTo(slots, order, i, cur)
    ensures cur[order[i]].parent == slots[order[i]].parent
  {
    assert order[i] !in order[..i];
  }

  /** Handling `order[i]`: push it into its parent's `directories`, then delete its `parent`. */
  lemma LinkStep<P>(slots: seq<Slot<P>>, order: seq<nat>, i: nat, cur: seq<Slot<P>>, cur': seq<Slot<P>>)
    requires ParentsEarlier(slots) && Distinct(order)
    requires i < |order| && forall t :: 0 <= t < |order| ==> order[t] < |slots|
    requires LinkedUpTo(slots, order, i, cur) && slots[order[i]].parent.Some?
    requires var v, p := order[i], slots[order[i]].parent.value;
             && |cur'| == |cur|
             && cur'[p] == cur[p].(directories := cur[p].directories + [v])
             && cur'[v] == cur[v].(parent := None)
             && forall j :: 0 <= j < |cur| && j != p && j != v ==> cur'[j] == cur[j]
    ensures LinkedUpTo(slots, order, i + 1, cur')
  {
    var v := order[i];
    var o, o' := order[..i], order[..i + 1];
    assert o'[..i] == o && o'[i] == v;
    assert v !in o;
    forall j | 0 <= j < |slots|
      ensures ChildrenOf(slots, o', j) == ChildrenOf(slots, o, j) + (if slots[v].parent == Some(j) then [v] else [])
      ensures (j in o') == (j in o || j == v)
    {
      assert o' == o + [v];
    }
  }

  /**
   * The last loop: for each node of `order`, push it into its parent's
   * `directories`, then delete its `parent`. A node without a parent makes
   * the push throw, and then there is no tree (`None`).
   */
  method LinkChildren<P>(slots: seq<Slot<P>>, order: seq<nat>) returns (linked: Option<seq<Slot<P>>>)
    requires ParentsEarlier(slots) && ChildrenAfter(slots)
    requires forall i :: 0 <= i < |order| ==> order[i] < |slots|
    requires Distinct(order)
    ensures linked.None? <==> exists i :: 0 <= i < |order| && slots[order[i]].parent.None?
    ensures linked.Some? ==> linked.value == Linked(slots, order)
    ensures linked.Some? ==> |linked.value| == |slots| && ChildrenAfter(linked.value)
  {
    var cur := slots;
    LinkedStart(slots, order);
    for i := 0 to |order|
      invariant forall t :: 0 <= t < i ==> slots[order[t]].parent.Some?
      invariant LinkedUpTo(slots, order, i, cur)
    {
      var next := LinkOne(slots, order, i, cur);
      if next.None? {
        assert slots[order[i]].parent.None?;
        return None;
      }
      cur := next.value;
    }
    LinkedAll(slots, order, cur);
    linked := Some(cur);
  }

  /** One iteration of the last loop, on node `order[i]`; `None` when it has no parent. */
  method LinkOne<P>(slots: seq<Slot<P>>, order: seq<nat>, i: nat, cur: seq<Slot<P>>)
    returns (next: Option<seq<Slot<P>>>)
    requires ParentsEarlier(slots) && Distinct(order)
    requires i < |order| && forall t :: 0 <= t < |order| ==> order[t] < |slots|
    requires LinkedUpTo(slots, order, i, cur)
    ensures next.None? <==> slots[order[i]].parent.None?
    ensures next.Some? ==> LinkedUpTo(slots, order, i + 1, next.value)
  {
    var v := order[i];
    LinkedParent(slots, order, i, cur);
    match cur[v].parent
    case None =>
      return None;
    case Some(p) =>
      var linked := cur[p := cur[p].(directories := cur[p].directories + [v])];
      linked := linked[v := linked[v].(parent := None)];
      LinkStep(slots, order, i, cur, linked);
      next := Some(linked);
  }

  /** Once every node of `order` is handled, each sits among its parent's later-created children. */
  lemma LinkedAll<P>(slots: seq<Slot<P>>, order: seq<nat>, cur: seq<Slot<P>>)
    requires ParentsEarlier(slots) && ChildrenAfter(slots) && forall t :: 0 <= t < |order| ==> order[t] < |slots|
    requires LinkedUpTo(slots, order, |order|, cur)
    ensures cur == Linked(slots, order) && ChildrenAfter(cur)
  {
    assert order[..|order|] == order;
    LinkedChildrenAfter(slots, order);
  }

  // ---------------------------------------------------------------- the tree

  /** The tree node `i` stands for once the arena is linked. */
  function Materialize<P>(slots: seq<Slot<P>>, i: nat): Tree<P>
    requires ChildrenAfter(slots) && i < |slots|
    decreases |slots| - i
  {
    var ds := slots[i].directories;
    Tree(slots[i].payload, seq(|ds|, k requires 0 <= k < |ds| => Materialize(slots, ds[k])))
  }

  /** Every node strictly below the top satisfies `q`. */
  ghost predicate AllBelow<P>(t: Tree<P>, q: P -> bool)
    decreases t
  {
    forall k :: 0 <= k < |t.directories| ==> q(t.directories[k].payload) && AllBelow(t.directories[k], q)
  }

  /** A property of every created node holds of every node below the root. */
  lemma {:induction false} MaterializeAllBelow<P>(slots: seq<Slot<P>>, i: nat, q: P -> bool)
    requires ChildrenAfter(slots) && i < |slots|
    requires forall j :: 0 < j < |slots| ==> q(slots[j].payload)
    ensures AllBelow(Materialize(slots, i), q)
    decreases |slots| - i
  {
    var t := Materialize(slots, i);
    forall k | 0 <= k < |t.directories|
      ensures q(t.directories[k].payload) && AllBelow(t.directories[k], q)
    {
      MaterializeAllBelow(slots, slots[i].directories[k], q);
    }
  }
}
