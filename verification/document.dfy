/** The in-memory document the updaters work on.

    An element has a stable identity (`NodeKey`). The tree structure is a tree of
    identities; what the engine reads or writes on an element lives in one attribute
    store keyed by identity. Sub-trees cut from the live tree are kept in `detached`,
    as the removed elements stay alive (and copyable) after they leave their parent. */
module Document {
  import opened Wrappers

  /** Stable identity of one element. */
  type NodeKey = nat

  /** What the engine reads or writes on one element: its local name, its `version`
      and `id` attributes, its type discriminator (`xsi:type`, with the namespace
      prefix already resolved away) and its text content. */
  datatype Attrs = Attrs(
    localName: string,
    version: Option<string>,
    id: Option<string>,
    xsiType: Option<string>,
    text: Option<string>)

  /** Structure only: an element identity and its ordered children. */
  datatype Tree = Tree(key: NodeKey, children: seq<Tree>)

  /** The namespace declarations and the schema-location pairs on the root. */
  datatype Header = Header(namespaces: seq<string>, schemaLocations: seq<(string, string)>)

  /** `root` is the live document, `detached` the sub-trees removed from it so far. */
  datatype Doc = Doc(header: Header, root: Tree, detached: seq<Tree>, attrs: map<NodeKey, Attrs>)

  /** A deep copy of a sub-tree: its structure and the attributes it had when copied. */
  datatype Fragment = Fragment(tree: Tree, attrs: map<NodeKey, Attrs>)

  /** Keys of `t` in document order, `t` itself first. */
  function PreOrder(t: Tree): (r: seq<NodeKey>)
    ensures |r| > 0 && r[0] == t.key
  {
    [t.key] + PreOrderAll(t.children)
  }

  /** Keys of a sequence of sibling trees in document order. */
  function PreOrderAll(ts: seq<Tree>): seq<NodeKey>
  {
    if ts == [] then [] else PreOrder(ts[0]) + PreOrderAll(ts[1..])
  }

  /** Proper descendants of `t`, in document order. */
  function Descendants(t: Tree): seq<NodeKey>
  {
    PreOrderAll(t.children)
  }

  /** Elements reachable from the live root, the root first. */
  function Live(d: Doc): seq<NodeKey>
  {
    PreOrder(d.root)
  }

  /** The live tree followed by every detached sub-tree. */
  function Forest(d: Doc): seq<Tree>
  {
    [d.root] + d.detached
  }

  /** `root.attrib.get('version')`. */
  function RootVersion(d: Doc): Option<string>
  {
    if d.root.key in d.attrs then d.attrs[d.root.key].version else None
  }

  function SetOf(ks: seq<NodeKey>): set<NodeKey>
  {
    set k | k in ks
  }

  /** The first sub-tree, in document order, whose root is `k`. */
  function Locate(t: Tree, k: NodeKey): (r: Option<Tree>)
    ensures r.Some? ==> r.value.key == k
  {
    if t.key == k then Some(t) else LocateAll(t.children, k)
  }

  function LocateAll(ts: seq<Tree>, k: NodeKey): (r: Option<Tree>)
    ensures r.Some? ==> r.value.key == k
  {
    if ts == [] then None
    else
      match Locate(ts[0], k)
      case Some(s) => Some(s)
      case None => LocateAll(ts[1..], k)
  }

  /** `t` with every proper descendant whose key is in `gone` cut off, together with
      everything below it. The root of `t` itself is never cut. */
  function Prune(t: Tree, gone: set<NodeKey>): (r: Tree)
    ensures r.key == t.key
  {
    Tree(t.key, PruneAll(t.children, gone))
  }

  function PruneAll(ts: seq<Tree>, gone: set<NodeKey>): seq<Tree>
  {
    if ts == [] then []
    else (if ts[0].key in gone then [] else [Prune(ts[0], gone)]) + PruneAll(ts[1..], gone)
  }

  lemma PreOrderAllAppend(a: seq<Tree>, b: seq<Tree>)
    ensures PreOrderAll(a + b) == PreOrderAll(a) + PreOrderAll(b)
  {
    if a == [] {
      assert a + b == b;
    } else {
      assert (a + b)[1..] == a[1..] + b;
      PreOrderAllAppend(a[1..], b);
    }
  }

  /** Cutting nothing leaves the tree as it is. */
  lemma {:induction false} PruneNothing(t: Tree)
    ensures Prune(t, {}) == t
  {
    PruneAllNothing(t.children);
  }

  lemma {:induction false} PruneAllNothing(ts: seq<Tree>)
    ensures PruneAll(ts, {}) == ts
  {
    if ts != [] {
      PruneNothing(ts[0]);
      PruneAllNothing(ts[1..]);
      assert [ts[0]] + ts[1..] == ts;
    }
  }

  /** Cutting `a` and then `b` is cutting `a + b` at once: the order of removals does
      not matter to the live tree. */
  lemma {:induction false} PruneCompose(t: Tree, a: set<NodeKey>, b: set<NodeKey>)
    ensures Prune(Prune(t, a), b) == Prune(t, a + b)
  {
    PruneAllCompose(t.children, a, b);
  }

  lemma {:induction false} PruneAllCompose(ts: seq<Tree>, a: set<NodeKey>, b: set<NodeKey>)
    ensures PruneAll(PruneAll(ts, a), b) == PruneAll(ts, a + b)
  {
    if ts != [] {
      PruneAllCompose(ts[1..], a, b);
      if ts[0].key !in a {
        var s := [Prune(ts[0], a)] + PruneAll(ts[1..], a);
        assert PruneAll(ts, a) == s;
        assert s[0] == Prune(ts[0], a) && s[1..] == PruneAll(ts[1..], a);
        PruneCompose(ts[0], a, b);
        assert PruneAll(s, b)
            == (if ts[0].key in b then [] else [Prune(ts[0], a + b)]) + PruneAll(PruneAll(ts[1..], a), b);
        assert PruneAll(ts, a + b)
            == (if ts[0].key in a + b then [] else [Prune(ts[0], a + b)]) + PruneAll(ts[1..], a + b);
      } else {
        assert PruneAll(ts, a) == PruneAll(ts[1..], a);
        assert PruneAll(ts, a + b) == PruneAll(ts[1..], a + b);
      }
    }
  }

  /** After cutting `gone`, no key of `gone` is left below the root, and nothing new appears. */
  lemma {:induction false} PruneAllExcludes(ts: seq<Tree>, gone: set<NodeKey>)
    ensures forall k :: k in PreOrderAll(PruneAll(ts, gone)) ==> k in PreOrderAll(ts) && k !in gone
  {
    if ts != [] {
      PruneAllExcludes(ts[1..], gone);
      PruneAllExcludes(ts[0].children, gone);
      var head := if ts[0].key in gone then [] else [Prune(ts[0], gone)];
      PreOrderAllAppend(head, PruneAll(ts[1..], gone));
      if ts[0].key !in gone {
        assert [Prune(ts[0], gone)][1..] == [];
      }
    }
  }

  /** No key appears twice. */
  ghost predicate Distinct(ks: seq<NodeKey>)
  {
    forall k :: multiset(ks)[k] <= 1
  }

  lemma DistinctAppend(a: seq<NodeKey>, b: seq<NodeKey>)
    requires Distinct(a + b)
    ensures Distinct(a) && Distinct(b)
    ensures forall k :: k in a ==> k !in b
  {
    var m := multiset(a + b);
    assert m == multiset(a) + multiset(b);
    forall k
      ensures multiset(a)[k] <= 1 && multiset(b)[k] <= 1
      ensures k in a ==> k !in b
    {
      assert m[k] == multiset(a)[k] + multiset(b)[k];
      assert k in a <==> multiset(a)[k] > 0;
      assert k in b <==> multiset(b)[k] > 0;
    }
  }

  /** Fewer occurrences of every key keep the keys distinct. */
  lemma DistinctSub(a: seq<NodeKey>, b: seq<NodeKey>)
    requires Distinct(b) && multiset(a) <= multiset(b)
    ensures Distinct(a)
  {
  }

  /** Cutting keys that do not occur changes nothing. */
  lemma {:induction false} PruneAllAbsent(ts: seq<Tree>, gone: set<NodeKey>)
    requires forall k :: k in PreOrderAll(ts) ==> k !in gone
    ensures PruneAll(ts, gone) == ts
  {
    if ts != [] {
      assert PreOrderAll(ts) == PreOrder(ts[0]) + PreOrderAll(ts[1..]);
      assert PreOrder(ts[0]) == [ts[0].key] + PreOrderAll(ts[0].children);
      PruneAllAbsent(ts[0].children, gone);
      PruneAllAbsent(ts[1..], gone);
      assert Prune(ts[0], gone) == ts[0];
      assert [ts[0]] + ts[1..] == ts;
    }
  }

  /** A key that does not occur is not located. */
  lemma {:induction false} LocateAllMissing(ts: seq<Tree>, k: NodeKey)
    requires k !in PreOrderAll(ts)
    ensures LocateAll(ts, k) == None
  {
    if ts != [] {
      assert PreOrderAll(ts) == PreOrder(ts[0]) + PreOrderAll(ts[1..]);
      LocateAllMissing(ts[0].children, k);
      LocateAllMissing(ts[1..], k);
    }
  }

  /** A located sub-tree holds only keys of the trees it was found in. */
  lemma {:induction false} LocateAllInside(ts: seq<Tree>, k: NodeKey)
    requires LocateAll(ts, k).Some?
    ensures forall x :: x in PreOrder(LocateAll(ts, k).value) ==> x in PreOrderAll(ts)
  {
    assert ts != [];
    assert PreOrderAll(ts) == PreOrder(ts[0]) + PreOrderAll(ts[1..]);
    if ts[0].key == k {
    } else if LocateAll(ts[0].children, k).Some? {
      LocateAllInside(ts[0].children, k);
    } else {
      LocateAllInside(ts[1..], k);
    }
  }

  /** With distinct keys, cutting `k` from a forest that holds it removes exactly the
      keys of the sub-tree rooted at `k`. */
  lemma {:induction false} PruneAllSplit(ts: seq<Tree>, k: NodeKey)
    requires Distinct(PreOrderAll(ts)) && k in PreOrderAll(ts)
    ensures LocateAll(ts, k).Some?
    ensures forall x :: x in PreOrderAll(PruneAll(ts, {k})) <==>
              x in PreOrderAll(ts) && x !in PreOrder(LocateAll(ts, k).value)
  {
    var t := ts[0];
    var rest := ts[1..];
    var P := PreOrder(t);
    var R := PreOrderAll(rest);
    assert PreOrderAll(ts) == P + R;
    DistinctAppend(P, R);
    assert P == [t.key] + PreOrderAll(t.children);
    DistinctAppend([t.key], PreOrderAll(t.children));
    var head := if t.key == k then [] else [Prune(t, {k})];
    assert PruneAll(ts, {k}) == head + PruneAll(rest, {k});
    PreOrderAllAppend(head, PruneAll(rest, {k}));
    if k in P {
      PruneAllAbsent(rest, {k});
      if t.key == k {
        assert LocateAll(ts, k) == Some(t);
      } else {
        PruneAllSplit(t.children, k);
        LocateAllInside(t.children, k);
        assert LocateAll(ts, k) == LocateAll(t.children, k);
        assert head == [Prune(t, {k})] && [Prune(t, {k})][1..] == [];
        assert PreOrderAll(head) == [t.key] + PreOrderAll(PruneAll(t.children, {k})) + [];
      }
    } else {
      assert t.key != k;
      PruneAllAbsent(t.children, {k});
      assert Prune(t, {k}) == t;
      LocateAllMissing(t.children, k);
      assert LocateAll(ts, k) == LocateAll(rest, k);
      PruneAllSplit(rest, k);
      LocateAllInside(rest, k);
      assert head == [t] && [t][1..] == [];
      assert PreOrderAll(head) == P + [];
    }
  }

  lemma PreOrderAllCons(t: Tree, ts: seq<Tree>)
    ensures PreOrderAll([t] + ts) == PreOrder(t) + PreOrderAll(ts)
  {
    assert ([t] + ts)[0] == t && ([t] + ts)[1..] == ts;
  }

  /** The search over `a + b` finds in `a` first. */
  lemma {:induction false} LocateAllAppend(a: seq<Tree>, b: seq<Tree>, k: NodeKey)
    ensures LocateAll(a + b, k) == if LocateAll(a, k).Some? then LocateAll(a, k) else LocateAll(b, k)
  {
    if a == [] {
      assert a + b == b;
    } else {
      assert (a + b)[0] == a[0] && (a + b)[1..] == a[1..] + b;
      LocateAllAppend(a[1..], b, k);
    }
  }

  /** A key that does not occur in `t` is not located in it. */
  lemma LocateMissing(t: Tree, k: NodeKey)
    requires k !in PreOrder(t)
    ensures Locate(t, k) == None
  {
    LocateAllMissing(t.children, k);
  }

  /** A key that occurs is located. */
  lemma {:induction false} LocateAllFound(ts: seq<Tree>, k: NodeKey)
    requires k in PreOrderAll(ts)
    ensures LocateAll(ts, k).Some?
  {
    assert PreOrderAll(ts) == PreOrder(ts[0]) + PreOrderAll(ts[1..]);
    if k in PreOrder(ts[0]) {
      if ts[0].key != k {
        LocateAllFound(ts[0].children, k);
      }
    } else {
      LocateAllFound(ts[1..], k);
    }
  }

  lemma LocateFound(t: Tree, k: NodeKey)
    requires k in PreOrder(t)
    ensures Locate(t, k).Some?
  {
    if t.key != k {
      LocateAllFound(t.children, k);
    }
  }

  /** A located sub-tree holds no key more often than the trees it was found in. */
  lemma {:induction false} LocateAllSub(ts: seq<Tree>, k: NodeKey)
    requires LocateAll(ts, k).Some?
    ensures multiset(PreOrder(LocateAll(ts, k).value)) <= multiset(PreOrderAll(ts))
  {
    assert PreOrderAll(ts) == PreOrder(ts[0]) + PreOrderAll(ts[1..]);
    if ts[0].key == k {
    } else if LocateAll(ts[0].children, k).Some? {
      LocateAllSub(ts[0].children, k);
    } else {
      LocateAllSub(ts[1..], k);
    }
  }

  /** Pruning never adds an occurrence of a key. */
  lemma {:induction false} PruneAllSub(ts: seq<Tree>, gone: set<NodeKey>)
    ensures multiset(PreOrderAll(PruneAll(ts, gone))) <= multiset(PreOrderAll(ts))
  {
    if ts != [] {
      assert PreOrderAll(ts) == PreOrder(ts[0]) + PreOrderAll(ts[1..]);
      PruneAllSub(ts[0].children, gone);
      PruneAllSub(ts[1..], gone);
      var head := if ts[0].key in gone then [] else [Prune(ts[0], gone)];
      PreOrderAllAppend(head, PruneAll(ts[1..], gone));
      if ts[0].key !in gone {
        PreOrderAllCons(Prune(ts[0], gone), []);
      }
    }
  }

  /** Cutting `k` takes out at least the first sub-tree rooted at `k`: what stays and
      that sub-tree together hold no key more often than before. */
  lemma {:induction false} PruneAllCut(ts: seq<Tree>, k: NodeKey)
    requires LocateAll(ts, k).Some?
    ensures multiset(PreOrderAll(PruneAll(ts, {k}))) + multiset(PreOrder(LocateAll(ts, k).value))
            <= multiset(PreOrderAll(ts))
  {
    var t := ts[0];
    assert PreOrderAll(ts) == PreOrder(t) + PreOrderAll(ts[1..]);
    var head := if t.key == k then [] else [Prune(t, {k})];
    assert PruneAll(ts, {k}) == head + PruneAll(ts[1..], {k});
    PreOrderAllAppend(head, PruneAll(ts[1..], {k}));
    if t.key == k {
      PruneAllSub(ts[1..], {k});
    } else {
      PreOrderAllCons(Prune(t, {k}), []);
      if LocateAll(t.children, k).Some? {
        PruneAllCut(t.children, k);
        PruneAllSub(ts[1..], {k});
      } else {
        PruneAllSub(t.children, {k});
        PruneAllCut(ts[1..], k);
      }
    }
  }

  /** Cutting keys that do not occur changes nothing, as an implication. */
  lemma PruneAllUntouched(ts: seq<Tree>, gone: set<NodeKey>)
    ensures (forall k :: k in PreOrderAll(ts) ==> k !in gone) ==> PruneAll(ts, gone) == ts
  {
    if forall k :: k in PreOrderAll(ts) ==> k !in gone {
      PruneAllAbsent(ts, gone);
    }
  }

  /** With distinct keys, an element that survives a prune is found in the pruned tree
      as the pruned version of its original sub-tree. */
  lemma {:induction false} LocatePruned(t: Tree, gone: set<NodeKey>, x: NodeKey)
    requires Distinct(PreOrder(t)) && x in PreOrder(Prune(t, gone))
    ensures Locate(t, x).Some?
    ensures Locate(Prune(t, gone), x) == Some(Prune(Locate(t, x).value, gone))
    decreases t, 1
  {
    if t.key != x {
      DistinctAppend([t.key], PreOrderAll(t.children));
      LocateAllPruned(t.children, gone, x);
    }
  }

  lemma {:induction false} LocateAllPruned(ts: seq<Tree>, gone: set<NodeKey>, x: NodeKey)
    requires Distinct(PreOrderAll(ts)) && x in PreOrderAll(PruneAll(ts, gone))
    ensures LocateAll(ts, x).Some?
    ensures LocateAll(PruneAll(ts, gone), x) == Some(Prune(LocateAll(ts, x).value, gone))
    decreases ts, 0
  {
    var t := ts[0];
    var rest := ts[1..];
    assert PreOrderAll(ts) == PreOrder(t) + PreOrderAll(rest);
    DistinctAppend(PreOrder(t), PreOrderAll(rest));
    PruneAllExcludes(rest, gone);
    if t.key in gone {
      assert PruneAll(ts, gone) == PruneAll(rest, gone);
      LocateMissing(t, x);
      LocateAllPruned(rest, gone, x);
    } else {
      var p := Prune(t, gone);
      assert PruneAll(ts, gone) == [p] + PruneAll(rest, gone);
      PreOrderAllCons(p, PruneAll(rest, gone));
      assert ([p] + PruneAll(rest, gone))[0] == p && ([p] + PruneAll(rest, gone))[1..] == PruneAll(rest, gone);
      if x in PreOrder(p) {
        LocatePruned(t, gone, x);
      } else {
        LocateMissing(t, x);
        LocateMissing(p, x);
        LocateAllPruned(rest, gone, x);
      }
    }
  }

  /** With distinct keys, an element inside the located sub-tree of `k` is found at the
      same place by a search from the top. */
  lemma {:induction false} LocateNested(ts: seq<Tree>, k: NodeKey, x: NodeKey)
    requires Distinct(PreOrderAll(ts)) && LocateAll(ts, k).Some? && x in PreOrder(LocateAll(ts, k).value)
    ensures LocateAll(ts, x) == Locate(LocateAll(ts, k).value, x)
  {
    var t := ts[0];
    var rest := ts[1..];
    var c := LocateAll(ts, k).value;
    assert PreOrderAll(ts) == PreOrder(t) + PreOrderAll(rest);
    DistinctAppend(PreOrder(t), PreOrderAll(rest));
    if Locate(t, k).Some? {
      if t.key != k {
        DistinctAppend([t.key], PreOrderAll(t.children));
        LocateAllInside(t.children, k);
        LocateNested(t.children, k, x);
      }
      LocateFound(t, x);
    } else {
      LocateAllInside(rest, k);
      LocateMissing(t, x);
      LocateNested(rest, k, x);
    }
  }
}
