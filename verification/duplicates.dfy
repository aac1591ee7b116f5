/** Duplicate-identifier remapping (`_clean_duplicates`). */
module Duplicates {
  import opened Document
  import opened Wrappers

  /** What the duplicate scan returns: each duplicated id with the elements that carry
      it, in the order the scan's dictionary is iterated. Ids are keys of a dictionary,
      so a well-formed map lists each id once (`DistinctIds`). */
  type DupMap = seq<(string, seq<NodeKey>)>

  /** `create_new_id(id_)`: the identifier its `n`-th call within one clean run returns
      for `id_`. Where it draws its randomness from is left to the caller. */
  type IdMinter = (string, nat) -> string

  predicate DistinctIds(dups: DupMap)
  {
    forall i, j :: 0 <= i < j < |dups| ==> dups[i].0 != dups[j].0
  }

  /** The pairs (id, element) in the order the nested loop visits them. */
  function Flatten(dups: DupMap): seq<(string, NodeKey)>
  {
    if dups == [] then [] else Expand(dups[0].0, dups[0].1) + Flatten(dups[1..])
  }

  function Expand(x: string, ks: seq<NodeKey>): (r: seq<(string, NodeKey)>)
    ensures |r| == |ks|
  {
    if ks == [] then [] else [(x, ks[0])] + Expand(x, ks[1..])
  }

  /** How many visited pairs carry id `x`. */
  function Count(pairs: seq<(string, NodeKey)>, x: string): nat
  {
    if pairs == [] then 0 else (if pairs[0].0 == x then 1 else 0) + Count(pairs[1..], x)
  }

  /** The ids visited pairs carry. */
  function IdsOf(pairs: seq<(string, NodeKey)>): set<string>
  {
    set p | p in pairs :: p.0
  }

  /** Element `k` is renamed somewhere in `pairs`. */
  predicate Listed(pairs: seq<(string, NodeKey)>, k: NodeKey)
  {
    exists j :: 0 <= j < |pairs| && pairs[j].1 == k
  }

  /** Pair `j` is the last one that renames its element. */
  predicate LastRename(pairs: seq<(string, NodeKey)>, j: int)
    requires 0 <= j < |pairs|
  {
    forall j' :: j < j' < |pairs| ==> pairs[j'].1 != pairs[j].1
  }

  /** The new ids minted for `x`, in order, when `pairs` are visited starting with the
      `n`-th call of the minter. */
  function Drawn(mint: IdMinter, pairs: seq<(string, NodeKey)>, x: string, n: nat): seq<string>
  {
    if pairs == [] then []
    else (if pairs[0].0 == x then [mint(x, n)] else []) + Drawn(mint, pairs[1..], x, n + 1)
  }

  function Lookup(log: map<string, seq<string>>, x: string): seq<string>
  {
    if x in log then log[x] else []
  }

  /** The attribute store after renaming, and the per-id log (`cleaned_ids`). */
  datatype Relabelled = Relabelled(attrs: map<NodeKey, Attrs>, log: map<string, seq<string>>)

  /** The loop body of `_clean_duplicates`, over the visited pairs: mint a new id for
      the pair's id, write it to the element's `id` attribute, append it to the log. */
  function Relabel(attrs: map<NodeKey, Attrs>, pairs: seq<(string, NodeKey)>, mint: IdMinter,
                   n: nat, log: map<string, seq<string>>): (r: Relabelled)
    ensures r.attrs.Keys == attrs.Keys
    decreases |pairs|
  {
    if pairs == [] then Relabelled(attrs, log)
    else
      var (x, k) := pairs[0];
      var newId := mint(x, n);
      var attrs' := if k in attrs then attrs[k := attrs[k].(id := Some(newId))] else attrs;
      Relabel(attrs', pairs[1..], mint, n + 1, log[x := Lookup(log, x) + [newId]])
  }

  /** One step of the loop, unfolded. */
  lemma RelabelStep(attrs: map<NodeKey, Attrs>, pairs: seq<(string, NodeKey)>, mint: IdMinter,
                    n: nat, log: map<string, seq<string>>)
    requires pairs != []
    ensures var (x, k) := pairs[0];
      Relabel(attrs, pairs, mint, n, log)
      == Relabel(if k in attrs then attrs[k := attrs[k].(id := Some(mint(x, n)))] else attrs,
                 pairs[1..], mint, n + 1, log[x := Lookup(log, x) + [mint(x, n)]])
  {
  }

  /** Renaming touches only the `id` attribute, and only of listed elements. */
  lemma {:induction false} RelabelOnlyIds(attrs: map<NodeKey, Attrs>, pairs: seq<(string, NodeKey)>,
                                          mint: IdMinter, n: nat, log: map<string, seq<string>>)
    ensures var r := Relabel(attrs, pairs, mint, n, log);
      forall k :: k in attrs ==> r.attrs[k] == attrs[k].(id := r.attrs[k].id)
    ensures var r := Relabel(attrs, pairs, mint, n, log);
      forall k :: k in attrs && !Listed(pairs, k) ==> r.attrs[k] == attrs[k]
    decreases |pairs|
  {
    if pairs != [] {
      var (x, k) := pairs[0];
      var attrs' := if k in attrs then attrs[k := attrs[k].(id := Some(mint(x, n)))] else attrs;
      var log' := log[x := Lookup(log, x) + [mint(x, n)]];
      RelabelStep(attrs, pairs, mint, n, log);
      RelabelOnlyIds(attrs', pairs[1..], mint, n + 1, log');
      forall k' | Listed(pairs[1..], k') ensures Listed(pairs, k') {
        var j :| 0 <= j < |pairs[1..]| && pairs[1..][j].1 == k';
        assert pairs[j + 1].1 == k';
      }
    }
  }

  /** The log gains exactly the visited ids, and for each id the new ids minted for it,
      in visiting order, appended to what it held. */
  lemma RelabelLog(attrs: map<NodeKey, Attrs>, pairs: seq<(string, NodeKey)>,
                   mint: IdMinter, n: nat, log: map<string, seq<string>>)
    ensures Relabel(attrs, pairs, mint, n, log).log.Keys == log.Keys + IdsOf(pairs)
    ensures var r := Relabel(attrs, pairs, mint, n, log);
      forall x :: x in r.log ==> r.log[x] == Lookup(log, x) + Drawn(mint, pairs, x, n)
  {
    RelabelLogKeys(attrs, pairs, mint, n, log);
    RelabelLogContents(attrs, pairs, mint, n, log);
  }

  lemma {:induction false} RelabelLogKeys(attrs: map<NodeKey, Attrs>, pairs: seq<(string, NodeKey)>,
                                          mint: IdMinter, n: nat, log: map<string, seq<string>>)
    ensures Relabel(attrs, pairs, mint, n, log).log.Keys == log.Keys + IdsOf(pairs)
    decreases |pairs|
  {
    if pairs == [] {
      assert IdsOf(pairs) == {};
    } else {
      var (x, k) := pairs[0];
      var attrs' := if k in attrs then attrs[k := attrs[k].(id := Some(mint(x, n)))] else attrs;
      var log' := log[x := Lookup(log, x) + [mint(x, n)]];
      RelabelStep(attrs, pairs, mint, n, log);
      RelabelLogKeys(attrs', pairs[1..], mint, n + 1, log');
      IdsOfCons(pairs);
    }
  }

  lemma {:induction false} RelabelLogContents(attrs: map<NodeKey, Attrs>, pairs: seq<(string, NodeKey)>,
                                              mint: IdMinter, n: nat, log: map<string, seq<string>>)
    ensures var r := Relabel(attrs, pairs, mint, n, log);
      forall x :: x in r.log ==> r.log[x] == Lookup(log, x) + Drawn(mint, pairs, x, n)
    decreases |pairs|
  {
    if pairs != [] {
      var (x, k) := pairs[0];
      var attrs' := if k in attrs then attrs[k := attrs[k].(id := Some(mint(x, n)))] else attrs;
      var log' := log[x := Lookup(log, x) + [mint(x, n)]];
      RelabelStep(attrs, pairs, mint, n, log);
      RelabelLogContents(attrs', pairs[1..], mint, n + 1, log');
      var rest := Relabel(attrs', pairs[1..], mint, n + 1, log').log;
      forall y | y in rest
        ensures rest[y] == Lookup(log, y) + Drawn(mint, pairs, y, n)
      {
        LogStep(log, pairs, mint, n, y);
      }
    }
  }

  /** Appending the first pair's new id to the log and drawing the rest is drawing all. */
  lemma LogStep(log: map<string, seq<string>>, pairs: seq<(string, NodeKey)>, mint: IdMinter, n: nat, y: string)
    requires pairs != []
    ensures var x := pairs[0].0;
      Lookup(log[x := Lookup(log, x) + [mint(x, n)]], y) + Drawn(mint, pairs[1..], y, n + 1)
      == Lookup(log, y) + Drawn(mint, pairs, y, n)
  {
    var x := pairs[0].0;
    var before := Lookup(log, y);
    var rest := Drawn(mint, pairs[1..], y, n + 1);
    LookupAppend(log, x, [mint(x, n)], y);
    DrawnUnfold(mint, pairs, y, n);
    if x == y {
      SeqAssoc(before, [mint(x, n)], rest);
    } else {
      assert before + [] == before && [] + rest == rest;
    }
  }

  lemma SeqAssoc<T>(a: seq<T>, b: seq<T>, c: seq<T>)
    ensures (a + b) + c == a + (b + c)
  {
  }

  lemma LookupAppend(log: map<string, seq<string>>, x: string, s: seq<string>, y: string)
    ensures Lookup(log[x := Lookup(log, x) + s], y) == Lookup(log, y) + (if x == y then s else [])
  {
    if x != y {
      assert Lookup(log, y) + [] == Lookup(log, y);
    }
  }

  lemma DrawnUnfold(mint: IdMinter, pairs: seq<(string, NodeKey)>, y: string, n: nat)
    requires pairs != []
    ensures Drawn(mint, pairs, y, n)
            == (if pairs[0].0 == y then [mint(y, n)] else []) + Drawn(mint, pairs[1..], y, n + 1)
  {
  }

  lemma IdsOfCons(pairs: seq<(string, NodeKey)>)
    requires pairs != []
    ensures IdsOf(pairs) == {pairs[0].0} + IdsOf(pairs[1..])
  {
    assert pairs == [pairs[0]] + pairs[1..];
  }

  /** `_clean_duplicates`: the log starts empty and the minter is called once per
      visited pair. Only listed elements change, and only their `id`; the log holds
      exactly the visited ids, each with the ids minted for it in visiting order. */
  function CleanDuplicates(attrs: map<NodeKey, Attrs>, dups: DupMap, mint: IdMinter): (r: Relabelled)
    ensures r.attrs.Keys == attrs.Keys
    ensures forall k :: k in attrs ==> r.attrs[k] == attrs[k].(id := r.attrs[k].id)
    ensures forall k :: k in attrs && !Listed(Flatten(dups), k) ==> r.attrs[k] == attrs[k]
    ensures r.log.Keys == IdsOf(Flatten(dups))
    ensures forall x :: x in r.log ==> r.log[x] == Drawn(mint, Flatten(dups), x, 0)
  {
    RelabelOnlyIds(attrs, Flatten(dups), mint, 0, map[]);
    RelabelLog(attrs, Flatten(dups), mint, 0, map[]);
    Relabel(attrs, Flatten(dups), mint, 0, map[])
  }

  /** The element of pair `j` ends up with the id minted for that pair, provided no later
      pair renames it again. */
  lemma {:induction false} RelabelWrites(attrs: map<NodeKey, Attrs>, pairs: seq<(string, NodeKey)>,
                                         mint: IdMinter, n: nat, log: map<string, seq<string>>, j: nat)
    requires j < |pairs| && pairs[j].1 in attrs && LastRename(pairs, j)
    ensures Relabel(attrs, pairs, mint, n, log).attrs[pairs[j].1].id == Some(mint(pairs[j].0, n + j))
    decreases |pairs|
  {
    var (x, k) := pairs[0];
    var attrs' := if k in attrs then attrs[k := attrs[k].(id := Some(mint(x, n)))] else attrs;
    var log' := log[x := Lookup(log, x) + [mint(x, n)]];
    RelabelStep(attrs, pairs, mint, n, log);
    if j == 0 {
      RelabelOnlyIds(attrs', pairs[1..], mint, n + 1, log');
    } else {
      assert pairs[1..][j - 1] == pairs[j];
      RelabelWrites(attrs', pairs[1..], mint, n + 1, log', j - 1);
    }
  }

  lemma {:induction false} DrawnCount(mint: IdMinter, pairs: seq<(string, NodeKey)>, x: string, n: nat)
    ensures |Drawn(mint, pairs, x, n)| == Count(pairs, x)
    decreases |pairs|
  {
    if pairs != [] {
      DrawnCount(mint, pairs[1..], x, n + 1);
    }
  }

  lemma {:induction false} CountAppend(a: seq<(string, NodeKey)>, b: seq<(string, NodeKey)>, x: string)
    ensures Count(a + b, x) == Count(a, x) + Count(b, x)
  {
    if a == [] {
      assert a + b == b;
    } else {
      assert (a + b)[1..] == a[1..] + b;
      CountAppend(a[1..], b, x);
    }
  }

  lemma {:induction false} ExpandCount(y: string, ks: seq<NodeKey>, x: string)
    ensures Count(Expand(y, ks), x) == if x == y then |ks| else 0
  {
    if ks != [] {
      ExpandCount(y, ks[1..], x);
      assert Expand(y, ks)[1..] == Expand(y, ks[1..]);
    }
  }

  /** With distinct ids, the pairs visited for id `dups[i].0` are exactly the elements
      listed under it. */
  lemma {:induction false} FlattenCount(dups: DupMap, i: nat)
    requires i < |dups| && DistinctIds(dups)
    ensures Count(Flatten(dups), dups[i].0) == |dups[i].1|
  {
    var x := dups[i].0;
    CountAppend(Expand(dups[0].0, dups[0].1), Flatten(dups[1..]), x);
    ExpandCount(dups[0].0, dups[0].1, x);
    if i == 0 {
      FlattenAbsent(dups[1..], x);
    } else {
      assert dups[1..][i - 1] == dups[i];
      FlattenCount(dups[1..], i - 1);
    }
  }

  lemma {:induction false} FlattenAbsent(dups: DupMap, x: string)
    requires forall i :: 0 <= i < |dups| ==> dups[i].0 != x
    ensures Count(Flatten(dups), x) == 0
  {
    if dups != [] {
      CountAppend(Expand(dups[0].0, dups[0].1), Flatten(dups[1..]), x);
      ExpandCount(dups[0].0, dups[0].1, x);
      FlattenAbsent(dups[1..], x);
    }
  }

  lemma {:induction false} CountedIsId(pairs: seq<(string, NodeKey)>, x: string)
    requires Count(pairs, x) > 0
    ensures x in IdsOf(pairs)
  {
    if pairs[0].0 != x {
      CountedIsId(pairs[1..], x);
      var p :| p in pairs[1..] && p.0 == x;
      assert p in pairs;
    } else {
      assert pairs[0] in pairs;
    }
  }

  /** After `_clean_duplicates` the element of the `j`-th visited pair carries the id
      minted by the `j`-th call of the minter, unless a later pair renames it again. */
  lemma CleanDuplicatesWrites(attrs: map<NodeKey, Attrs>, dups: DupMap, mint: IdMinter, j: nat)
    requires j < |Flatten(dups)| && Flatten(dups)[j].1 in attrs && LastRename(Flatten(dups), j)
    ensures CleanDuplicates(attrs, dups, mint).attrs[Flatten(dups)[j].1].id == Some(mint(Flatten(dups)[j].0, j))
  {
    RelabelWrites(attrs, Flatten(dups), mint, 0, map[], j);
  }

  /** Every id whose group is non-empty is logged with exactly one new id per element in
      its group (`len(cleaned_ids[id]) == len(duplicates[id])`). */
  lemma CleanedIdsMatchDuplicates(attrs: map<NodeKey, Attrs>, dups: DupMap, mint: IdMinter, i: nat)
    requires i < |dups| && DistinctIds(dups) && dups[i].1 != []
    ensures var r := CleanDuplicates(attrs, dups, mint);
      dups[i].0 in r.log && |r.log[dups[i].0]| == |dups[i].1|
  {
    var x := dups[i].0;
    FlattenCount(dups, i);
    DrawnCount(mint, Flatten(dups), x, 0);
    CountedIsId(Flatten(dups), x);
  }
}
