/** Locator rules for disallowed and optional constructs, and the disallowed-node scan. */
module Rules {
  import opened Document

  /** A locator rule. Its `find` returns every proper descendant of the live root with
      this local name, in document order. */
  datatype Rule = Rule(localName: string)

  predicate Named(attrs: map<NodeKey, Attrs>, k: NodeKey, name: string)
  {
    k in attrs && attrs[k].localName == name
  }

  /** The keys of `ks` whose element has local name `name`, in their order in `ks`. */
  function Select(attrs: map<NodeKey, Attrs>, ks: seq<NodeKey>, name: string): (r: seq<NodeKey>)
    ensures forall k :: k in r <==> k in ks && Named(attrs, k, name)
    ensures |r| <= |ks|
  {
    if ks == [] then []
    else (if Named(attrs, ks[0], name) then [ks[0]] else []) + Select(attrs, ks[1..], name)
  }

  /** `rule.find(root)`. */
  function Find(rule: Rule, d: Doc): (r: seq<NodeKey>)
    ensures forall k :: k in r <==> k in Descendants(d.root) && Named(d.attrs, k, rule.localName)
  {
    Select(d.attrs, Descendants(d.root), rule.localName)
  }

  /** `_get_disallowed`: the results of every rule's `find`, concatenated in rule order.
      A node found by two rules is listed twice. */
  function GetDisallowed(rules: seq<Rule>, d: Doc): (r: seq<NodeKey>)
    ensures forall k :: k in r <==> exists i :: 0 <= i < |rules| && k in Find(rules[i], d)
    ensures r == [] <==> forall i :: 0 <= i < |rules| ==> Find(rules[i], d) == []
  {
    if rules == [] then []
    else
      var rest := GetDisallowed(rules[1..], d);
      assert forall i :: 0 < i < |rules| ==> Find(rules[i], d) == Find(rules[1..][i - 1], d);
      Find(rules[0], d) + rest
  }

  /** Two rules that match the same element both report it: the scan does not merge
      overlapping matches. */
  lemma RepeatedMatchReportedTwice(rule: Rule, d: Doc)
    requires Find(rule, d) != []
    ensures exists i, j :: 0 <= i < j < |GetDisallowed([rule, rule], d)| &&
              GetDisallowed([rule, rule], d)[i] == GetDisallowed([rule, rule], d)[j]
  {
    var r := GetDisallowed([rule, rule], d);
    var n := |Find(rule, d)|;
    assert [rule, rule][1..] == [rule] && [rule][1..] == [];
    assert GetDisallowed([rule], d) == Find(rule, d) + GetDisallowed([], d);
    assert r == Find(rule, d) + Find(rule, d);
    assert 0 <= 0 < n < |r| && r[0] == r[n];
  }

  /** A single rule's scan is its `find`. */
  lemma GetDisallowedSingle(rule: Rule, d: Doc)
    ensures GetDisallowed([rule], d) == Find(rule, d)
  {
    assert [rule][1..] == [];
  }

  /** The scan keeps rule order: scanning `a + b` lists `a`'s matches before `b`'s. */
  lemma {:induction false} GetDisallowedAppend(a: seq<Rule>, b: seq<Rule>, d: Doc)
    ensures GetDisallowed(a + b, d) == GetDisallowed(a, d) + GetDisallowed(b, d)
  {
    if a == [] {
      assert a + b == b;
    } else {
      assert (a + b)[0] == a[0] && (a + b)[1..] == a[1..] + b;
      GetDisallowedAppend(a[1..], b, d);
    }
  }

  /** The elements below the live root that some rule of `rules` matches. */
  function Matches(rules: seq<Rule>, d: Doc): (r: set<NodeKey>)
    ensures forall k :: k in r <==>
              k in Descendants(d.root) && exists i :: 0 <= i < |rules| && Named(d.attrs, k, rules[i].localName)
  {
    if rules == [] then {}
    else
      var rest := Matches(rules[1..], d);
      assert forall i :: 0 < i < |rules| ==> rules[i] == rules[1..][i - 1];
      SetOf(Find(rules[0], d)) + rest
  }
}
