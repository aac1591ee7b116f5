/** Copy-before-remove excision of elements (`_clean_disallowed`, and the plain
    removal `remove_xml_elements` used to prune optional elements). */
module Excision {
  import opened Wrappers
  import opened Document

  /** The children of every tree in `ts`, concatenated: the elements that have a parent. */
  function ChildrenOf(ts: seq<Tree>): seq<Tree>
  {
    if ts == [] then [] else ts[0].children + ChildrenOf(ts[1..])
  }

  function PruneEach(ts: seq<Tree>, gone: set<NodeKey>): (r: seq<Tree>)
    ensures |r| == |ts|
  {
    if ts == [] then [] else [Prune(ts[0], gone)] + PruneEach(ts[1..], gone)
  }

  /** `copy.deepcopy(node)`: the sub-tree of `k` wherever it now is (live or detached),
      with the attributes its elements have at this moment. A key that names no
      element gives a bare element. */
  function Snapshot(d: Doc, k: NodeKey): (f: Fragment)
    ensures f.tree.key == k
    ensures LocateAll(Forest(d), k).Some? ==> f.tree == LocateAll(Forest(d), k).value
    ensures LocateAll(Forest(d), k).None? ==> f.tree == Tree(k, [])
    ensures forall x :: x in f.attrs <==> x in d.attrs && x in PreOrder(f.tree)
    ensures forall x :: x in f.attrs ==> f.attrs[x] == d.attrs[x]
  {
    var t := match LocateAll(Forest(d), k) case Some(s) => s case None => Tree(k, []);
    Fragment(t, map x | x in d.attrs && x in PreOrder(t) :: d.attrs[x])
  }

  /** `remove_xml_element(node)`: detach `k` from its parent, keeping the detached
      sub-tree. An element without a parent stays where it is. Attributes are untouched. */
  function Remove(d: Doc, k: NodeKey): (r: Doc)
    ensures r.header == d.header && r.attrs == d.attrs
    ensures r.root == Prune(d.root, {k})
    ensures k !in Descendants(r.root)
  {
    PruneAllExcludes(d.root.children, {k});
    var cut := LocateAll(ChildrenOf(Forest(d)), k);
    d.(root := Prune(d.root, {k}),
       detached := PruneEach(d.detached, {k}) + (if cut.Some? then [cut.value] else []))
  }

  /** `remove_xml_elements(nodes)`: remove each element in turn, keeping no copies. */
  function RemoveAll(d: Doc, ks: seq<NodeKey>): (r: Doc)
    ensures r.header == d.header && r.attrs == d.attrs
    ensures r.root == Prune(d.root, SetOf(ks))
    decreases |ks|
  {
    if ks == [] then
      PruneNothing(d.root);
      assert SetOf(ks) == {};
      d
    else
      PruneCompose(d.root, {ks[0]}, SetOf(ks[1..]));
      assert SetOf(ks) == {ks[0]} + SetOf(ks[1..]);
      RemoveAll(Remove(d, ks[0]), ks[1..])
  }

  /** The document and the copies `_clean_disallowed` leaves behind. */
  datatype Cleared = Cleared(doc: Doc, removed: seq<Fragment>)

  /** `_clean_disallowed`: for each element in order, take a deep copy of it and
      then detach it. */
  function CleanDisallowed(d: Doc, ks: seq<NodeKey>): (r: Cleared)
    ensures |r.removed| == |ks|
    ensures forall i :: 0 <= i < |ks| ==> r.removed[i].tree.key == ks[i]
    ensures forall i :: 0 <= i < |ks| ==> r.removed[i] == Snapshot(RemoveAll(d, ks[..i]), ks[i])
    ensures forall i, x :: 0 <= i < |ks| ==>
              (x in r.removed[i].attrs <==> x in d.attrs && x in PreOrder(r.removed[i].tree))
    ensures forall i, x :: 0 <= i < |ks| && x in r.removed[i].attrs ==>
              r.removed[i].attrs[x] == d.attrs[x]
    ensures ks != [] && LocateAll(Forest(d), ks[0]).Some? ==>
              r.removed[0].tree == LocateAll(Forest(d), ks[0]).value
    ensures r.doc.header == d.header && r.doc.attrs == d.attrs
    ensures r.doc.root == Prune(d.root, SetOf(ks))
    decreases |ks|
  {
    if ks == [] then
      PruneNothing(d.root);
      assert SetOf(ks) == {};
      Cleared(d, [])
    else
      var copy := Snapshot(d, ks[0]);
      var rest := CleanDisallowed(Remove(d, ks[0]), ks[1..]);
      PruneCompose(d.root, {ks[0]}, SetOf(ks[1..]));
      assert SetOf(ks) == {ks[0]} + SetOf(ks[1..]);
      ShiftedSnapshots(d, ks, [copy] + rest.removed);
      Cleared(rest.doc, [copy] + rest.removed)
  }

  /** Copy `i` is taken once the elements before it have been removed. */
  lemma ShiftedSnapshots(d: Doc, ks: seq<NodeKey>, removed: seq<Fragment>)
    requires ks != [] && |removed| == |ks|
    requires removed[0] == Snapshot(d, ks[0])
    requires forall i :: 0 <= i < |ks| - 1 ==>
               removed[1..][i] == Snapshot(RemoveAll(Remove(d, ks[0]), ks[1..][..i]), ks[1..][i])
    ensures forall i :: 0 <= i < |ks| ==> removed[i] == Snapshot(RemoveAll(d, ks[..i]), ks[i])
  {
    assert ks[..0] == [];
    forall i | 1 <= i < |ks|
      ensures removed[i] == Snapshot(RemoveAll(d, ks[..i]), ks[i])
    {
      assert ks[..i][0] == ks[0] && ks[..i][1..] == ks[1..][..i - 1];
      assert removed[i] == removed[1..][i - 1];
    }
  }

  /** Afterwards none of the listed elements is attached below the live root, no
      element was added below it, and the live tree is the one plain removal of the
      same elements leaves: taking the copies changes nothing in the document. */
  lemma CleanDisallowedDetaches(d: Doc, ks: seq<NodeKey>)
    ensures forall k :: k in ks ==> k !in Descendants(CleanDisallowed(d, ks).doc.root)
    ensures forall k :: k in Descendants(CleanDisallowed(d, ks).doc.root) ==> k in Descendants(d.root)
    ensures CleanDisallowed(d, ks).doc.root == RemoveAll(d, ks).root
  {
    PruneAllExcludes(d.root.children, SetOf(ks));
    assert forall k :: k in ks ==> k in SetOf(ks);
  }

  /** The first copy is the whole sub-tree: when the keys of the live tree are
      distinct and the first listed element hangs below the root, the copy holds
      exactly the elements its removal takes out of the live tree. */
  lemma CopyBeforeRemove(d: Doc, ks: seq<NodeKey>)
    requires Distinct(Live(d)) && ks != [] && ks[0] in Descendants(d.root)
    ensures forall x :: x in PreOrder(CleanDisallowed(d, ks).removed[0].tree) <==>
              x in Live(d) && x !in Live(Remove(d, ks[0]))
  {
    var k := ks[0];
    var kids := d.root.children;
    assert Live(d) == [d.root.key] + PreOrderAll(kids);
    DistinctAppend([d.root.key], PreOrderAll(kids));
    PruneAllSplit(kids, k);
    LocateAllInside(kids, k);
    assert Locate(d.root, k) == LocateAll(kids, k);
    assert LocateAll(Forest(d), k) == LocateAll(kids, k);
    assert Live(Remove(d, k)) == [d.root.key] + PreOrderAll(PruneAll(kids, {k}));
  }

  /** The forest after `Remove`: every tree pruned of `k`, then the cut sub-tree, if
      `k` had a parent. */
  lemma RemoveForest(d: Doc, k: NodeKey)
    ensures Forest(Remove(d, k)) == PruneEach(Forest(d), {k}) +
              (if LocateAll(ChildrenOf(Forest(d)), k).Some? then [LocateAll(ChildrenOf(Forest(d)), k).value] else [])
  {
    assert Forest(d)[0] == d.root && Forest(d)[1..] == d.detached;
  }

  lemma {:induction false} ChildrenOfSub(ts: seq<Tree>)
    ensures multiset(PreOrderAll(ChildrenOf(ts))) <= multiset(PreOrderAll(ts))
    ensures forall y :: y in PreOrderAll(ChildrenOf(ts)) ==> y in PreOrderAll(ts)
  {
    if ts != [] {
      assert PreOrderAll(ts) == PreOrder(ts[0]) + PreOrderAll(ts[1..]);
      PreOrderAllAppend(ts[0].children, ChildrenOf(ts[1..]));
      ChildrenOfSub(ts[1..]);
    }
  }

  lemma {:induction false} PruneEachSub(ts: seq<Tree>, gone: set<NodeKey>)
    ensures multiset(PreOrderAll(PruneEach(ts, gone))) <= multiset(PreOrderAll(ts))
  {
    if ts != [] {
      assert PreOrderAll(ts) == PreOrder(ts[0]) + PreOrderAll(ts[1..]);
      PreOrderAllCons(Prune(ts[0], gone), PruneEach(ts[1..], gone));
      PruneAllSub(ts[0].children, gone);
      PruneEachSub(ts[1..], gone);
    }
  }

  /** Removing `k` keeps the pruned trees and the cut sub-tree, and holds no key more
      often than before. */
  lemma {:induction false} PruneEachCut(ts: seq<Tree>, k: NodeKey)
    requires LocateAll(ChildrenOf(ts), k).Some?
    ensures multiset(PreOrderAll(PruneEach(ts, {k}))) + multiset(PreOrder(LocateAll(ChildrenOf(ts), k).value))
            <= multiset(PreOrderAll(ts))
  {
    var t := ts[0];
    var rest := ts[1..];
    assert PreOrderAll(ts) == PreOrder(t) + PreOrderAll(rest);
    PreOrderAllCons(Prune(t, {k}), PruneEach(rest, {k}));
    LocateAllAppend(t.children, ChildrenOf(rest), k);
    if LocateAll(t.children, k).Some? {
      PruneAllCut(t.children, k);
      PruneEachSub(rest, {k});
    } else {
      PruneAllSub(t.children, {k});
      PruneEachCut(rest, k);
    }
  }

  /** With distinct keys, an element that has a parent is found by a search from the top
      where a search over the children finds it. */
  lemma {:induction false} LocateChildren(ts: seq<Tree>, y: NodeKey)
    requires Distinct(PreOrderAll(ts)) && LocateAll(ChildrenOf(ts), y).Some?
    ensures LocateAll(ts, y) == LocateAll(ChildrenOf(ts), y)
  {
    var t := ts[0];
    var rest := ts[1..];
    assert PreOrderAll(ts) == PreOrder(t) + PreOrderAll(rest);
    DistinctAppend(PreOrder(t), PreOrderAll(rest));
    LocateAllAppend(t.children, ChildrenOf(rest), y);
    if LocateAll(t.children, y).Some? {
      LocateAllInside(t.children, y);
      DistinctAppend([t.key], PreOrderAll(t.children));
      assert y in PreOrderAll(t.children) && t.key != y;
      assert Locate(t, y) == LocateAll(t.children, y);
    } else {
      LocateAllInside(ChildrenOf(rest), y);
      ChildrenOfSub(rest);
      LocateMissing(t, y);
      LocateChildren(rest, y);
    }
  }

  /** With distinct keys, an element that survives the removal of `k` is found as the
      pruned version of its original sub-tree. */
  lemma {:induction false} LocateEachPruned(ts: seq<Tree>, gone: set<NodeKey>, x: NodeKey)
    requires Distinct(PreOrderAll(ts)) && x in PreOrderAll(PruneEach(ts, gone))
    ensures LocateAll(ts, x).Some?
    ensures LocateAll(PruneEach(ts, gone), x) == Some(Prune(LocateAll(ts, x).value, gone))
  {
    var t := ts[0];
    var rest := ts[1..];
    var p := Prune(t, gone);
    assert PreOrderAll(ts) == PreOrder(t) + PreOrderAll(rest);
    DistinctAppend(PreOrder(t), PreOrderAll(rest));
    PreOrderAllCons(p, PruneEach(rest, gone));
    assert PruneEach(ts, gone)[0] == p && PruneEach(ts, gone)[1..] == PruneEach(rest, gone);
    if x in PreOrder(p) {
      LocatePruned(t, gone, x);
    } else {
      PruneEachSub(rest, gone);
      assert multiset(PreOrderAll(PruneEach(rest, gone)))[x] > 0;
      LocateMissing(t, x);
      LocateMissing(p, x);
      LocateEachPruned(rest, gone, x);
    }
  }

  /** With distinct keys, an element the removal of `k` takes out of the trees lies in
      the cut sub-tree. */
  lemma {:induction false} PrunedIntoCut(ts: seq<Tree>, k: NodeKey, x: NodeKey)
    requires Distinct(PreOrderAll(ts)) && x in PreOrderAll(ts) && x !in PreOrderAll(PruneEach(ts, {k}))
    ensures LocateAll(ChildrenOf(ts), k).Some?
    ensures x in PreOrder(LocateAll(ChildrenOf(ts), k).value)
  {
    var t := ts[0];
    var rest := ts[1..];
    assert PreOrderAll(ts) == PreOrder(t) + PreOrderAll(rest);
    DistinctAppend(PreOrder(t), PreOrderAll(rest));
    DistinctAppend([t.key], PreOrderAll(t.children));
    PreOrderAllCons(Prune(t, {k}), PruneEach(rest, {k}));
    LocateAllAppend(t.children, ChildrenOf(rest), k);
    if x in PreOrder(t) {
      PruneAllUntouched(t.children, {k});
      PruneAllSplit(t.children, k);
    } else {
      PrunedIntoCut(rest, k, x);
      LocateAllInside(ChildrenOf(rest), k);
      ChildrenOfSub(rest);
      assert k in PreOrder(LocateAll(ChildrenOf(rest), k).value);
      assert k in PreOrderAll(rest) && k !in PreOrder(t);
      LocateAllMissing(t.children, k);
    }
  }

  /** Removal holds no key more often than before, so it keeps the keys distinct. */
  lemma RemoveKeys(d: Doc, k: NodeKey)
    ensures multiset(PreOrderAll(Forest(Remove(d, k)))) <= multiset(PreOrderAll(Forest(d)))
    ensures Distinct(PreOrderAll(Forest(d))) ==> Distinct(PreOrderAll(Forest(Remove(d, k))))
  {
    var f := Forest(d);
    var kept := PruneEach(f, {k});
    var cut := LocateAll(ChildrenOf(f), k);
    var cs := if cut.Some? then [cut.value] else [];
    RemoveForest(d, k);
    PreOrderAllAppend(kept, cs);
    if cut.Some? {
      PreOrderAllCons(cut.value, []);
      PruneEachCut(f, k);
    } else {
      PruneEachSub(f, {k});
    }
    if Distinct(PreOrderAll(f)) {
      DistinctSub(PreOrderAll(Forest(Remove(d, k))), PreOrderAll(f));
    }
  }

  /** With distinct keys, an element that the removal of `k` takes out of the trees is
      found whole in the cut sub-tree, which no longer contains `k` below its root. */
  lemma LocateInCut(d: Doc, k: NodeKey, x: NodeKey)
    requires Distinct(PreOrderAll(Forest(d)))
    requires x in PreOrderAll(Forest(d)) && x !in PreOrderAll(PruneEach(Forest(d), {k}))
    ensures LocateAll(Forest(d), x).Some?
    ensures LocateAll(Forest(Remove(d, k)), x) == LocateAll(Forest(d), x)
    ensures Prune(LocateAll(Forest(d), x).value, {k}) == LocateAll(Forest(d), x).value
  {
    var f := Forest(d);
    var kept := PruneEach(f, {k});
    PrunedIntoCut(f, k, x);
    var c := LocateAll(ChildrenOf(f), k).value;
    var cs := [c];
    RemoveForest(d, k);
    LocateAllAppend(kept, cs, x);
    LocateChildren(f, k);
    LocateNested(f, k, x);
    LocateAllMissing(kept, x);
    LocateFound(c, x);
    assert LocateAll(cs, x) == Locate(c, x) by {
      assert cs[0] == c && cs[1..] == [];
    }
    var tx := Locate(c, x).value;
    LocateAllSub(ChildrenOf(f), k);
    ChildrenOfSub(f);
    DistinctSub(PreOrder(c), PreOrderAll(f));
    DistinctAppend([k], PreOrderAll(c.children));
    if x == k {
      assert tx == c;
    } else {
      LocateAllInside(c.children, x);
    }
    PruneAllAbsent(tx.children, {k});
  }

  /** Removal keeps the keys distinct, and a later copy of any element `x` is its
      original sub-tree with the sub-tree of `k` cut out: an element below `k` is still
      copied whole from the detached sub-tree. */
  lemma SnapshotAfterRemove(d: Doc, k: NodeKey, x: NodeKey)
    requires Distinct(PreOrderAll(Forest(d)))
    ensures Distinct(PreOrderAll(Forest(Remove(d, k))))
    ensures Snapshot(Remove(d, k), x).tree == Prune(Snapshot(d, x).tree, {k})
  {
    var f := Forest(d);
    var kept := PruneEach(f, {k});
    RemoveKeys(d, k);
    if x in PreOrderAll(kept) {
      var cut := LocateAll(ChildrenOf(f), k);
      var cs := if cut.Some? then [cut.value] else [];
      RemoveForest(d, k);
      LocateAllAppend(kept, cs, x);
      LocateEachPruned(f, {k}, x);
    } else if x in PreOrderAll(f) {
      LocateInCut(d, k, x);
    } else {
      LocateAllMissing(f, x);
      assert multiset(PreOrderAll(Forest(Remove(d, k))))[x] == 0;
      LocateAllMissing(Forest(Remove(d, k)), x);
    }
  }

  /** One removal, then more: the copy of `ks[i]` after removing `ks[0]` and then
      `ks[1..i]` is its original sub-tree with all of `ks[..i]` cut out. */
  lemma PrunedAfterFirst(d: Doc, ks: seq<NodeKey>, i: nat)
    requires Distinct(PreOrderAll(Forest(d))) && 1 <= i < |ks|
    ensures Prune(Snapshot(Remove(d, ks[0]), ks[i]).tree, SetOf(ks[1..][..i - 1]))
            == Prune(Snapshot(d, ks[i]).tree, SetOf(ks[..i]))
  {
    SnapshotAfterRemove(d, ks[0], ks[i]);
    PruneCompose(Snapshot(d, ks[i]).tree, {ks[0]}, SetOf(ks[1..][..i - 1]));
    assert ks[..i] == [ks[0]] + ks[1..][..i - 1];
    assert SetOf(ks[..i]) == {ks[0]} + SetOf(ks[1..][..i - 1]);
  }

  /** Every copy is deep: with distinct keys, copy `i` is the original sub-tree of
      element `i` with the sub-trees of the elements removed before it cut out. An
      element below an earlier-removed one is copied whole. */
  lemma {:induction false} CopiesArePrunedOriginals(d: Doc, ks: seq<NodeKey>)
    requires Distinct(PreOrderAll(Forest(d)))
    ensures forall i :: 0 <= i < |ks| ==>
              CleanDisallowed(d, ks).removed[i].tree == Prune(Snapshot(d, ks[i]).tree, SetOf(ks[..i]))
    decreases |ks|
  {
    if ks != [] {
      var e := Remove(d, ks[0]);
      var rest := CleanDisallowed(e, ks[1..]).removed;
      var removed := CleanDisallowed(d, ks).removed;
      assert removed == [Snapshot(d, ks[0])] + rest;
      RemoveKeys(d, ks[0]);
      CopiesArePrunedOriginals(e, ks[1..]);
      assert SetOf(ks[..0]) == {};
      PruneNothing(Snapshot(d, ks[0]).tree);
      forall i | 1 <= i < |ks|
        ensures removed[i].tree == Prune(Snapshot(d, ks[i]).tree, SetOf(ks[..i]))
      {
        assert removed[i] == rest[i - 1] && ks[1..][i - 1] == ks[i];
        PrunedAfterFirst(d, ks, i);
      }
    }
  }
}
