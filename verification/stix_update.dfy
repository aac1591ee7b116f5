/** `STIX_1_1_Updater`: STIX 1.1 to 1.1.1. Only the second (live) definitions of
    `check_update` and `clean` are modelled. */
module StixUpdate {
  import opened Wrappers
  import opened Document
  import Rules
  import opened Excision
  import opened Duplicates
  import opened Vocabulary
  import opened Protocol

  /** `STIX_1_1_Updater.VERSION`: the version this updater accepts. */
  const VERSION: string := "1.1"

  /** `DISALLOWED`: empty. */
  const DISALLOWED: seq<Rules.Rule> := []

  /** `OPTIONAL_ELEMENTS`: empty. */
  const OPTIONAL_ELEMENTS: seq<Rules.Rule> := []

  /** `TRANSLATABLE_FIELDS`: empty. A field's `translate` is a whole-document rewrite. */
  const TRANSLATABLE_FIELDS: seq<Doc -> Doc> := []

  /** `update` catches `UpdateError` and `UnknownVersionError`. */
  const CAUGHT: set<ErrorKind> := {NotUpdatable, UnknownVersion}

  /** `_check_version` (inherited): an absent or empty root version is unknown, any
      other version than `1.1` is invalid. */
  function CheckRootVersion(d: Doc): (r: Option<Failure>)
    ensures r.None? <==> RootVersion(d) == Some("1.1")
    ensures r == Some(UnknownVersionError) <==> RootVersion(d).None? || RootVersion(d) == Some("")
    ensures r.Some? && r.value.InvalidVersionError? <==>
              RootVersion(d).Some? && RootVersion(d).value !in {"", "1.1"}
    ensures r.Some? && r.value.InvalidVersionError? ==> r.value == InvalidVersionError("1.1", RootVersion(d).value)
  {
    CheckVersion(RootVersion(d), VERSION)
  }

  /** The `version` an element named `name` gets. */
  function StampFor(name: string): string
  {
    if name == "Indicator" then "2.1.1" else "1.1.1"
  }

  /** The keys of `ks` whose element carries a `version` attribute, in their order in `ks`. */
  function Versioned(attrs: map<NodeKey, Attrs>, ks: seq<NodeKey>): (r: seq<NodeKey>)
    ensures forall k :: k in r <==> k in ks && k in attrs && attrs[k].version.Some?
  {
    if ks == [] then []
    else (if ks[0] in attrs && attrs[ks[0]].version.Some? then [ks[0]] else []) + Versioned(attrs, ks[1..])
  }

  /** `_get_versioned_nodes`: the live elements, the root included, that carry a
      `version` attribute. */
  function VersionedNodes(d: Doc): (r: seq<NodeKey>)
    ensures forall k :: k in r <==> k in Live(d) && k in d.attrs && d.attrs[k].version.Some?
  {
    Versioned(d.attrs, Live(d))
  }

  /** The loop of `_update_versions`: every element of `ks` gets the version its local
      name calls for; every other element keeps its attributes. */
  function StampAll(attrs: map<NodeKey, Attrs>, ks: seq<NodeKey>): (r: map<NodeKey, Attrs>)
    ensures r.Keys == attrs.Keys
    ensures forall k :: k in attrs && k in ks ==>
              r[k] == attrs[k].(version := Some(if attrs[k].localName == "Indicator" then "2.1.1" else "1.1.1"))
    ensures forall k :: k in attrs && k !in ks ==> r[k] == attrs[k]
    decreases |ks|
  {
    if ks == [] then attrs
    else
      var k := ks[0];
      var stamped := if k in attrs then attrs[k := attrs[k].(version := Some(StampFor(attrs[k].localName)))] else attrs;
      StampAll(stamped, ks[1..])
  }

  /** `_update_versions`: every live element with a `version` attribute is stamped,
      `Indicator` elements with `2.1.1` and all others with `1.1.1`; nothing else, and
      no other attribute, changes. */
  function UpdateVersions(d: Doc): (r: Doc)
    ensures r.header == d.header && r.root == d.root && r.detached == d.detached
    ensures r.attrs.Keys == d.attrs.Keys
    ensures forall k :: k in d.attrs && k in Live(d) && d.attrs[k].version.Some? ==>
              && r.attrs[k].version == Some(if d.attrs[k].localName == "Indicator" then "2.1.1" else "1.1.1")
              && r.attrs[k] == d.attrs[k].(version := r.attrs[k].version)
    ensures forall k :: k in d.attrs && !(k in Live(d) && d.attrs[k].version.Some?) ==> r.attrs[k] == d.attrs[k]
  {
    d.(attrs := StampAll(d.attrs, VersionedNodes(d)))
  }

  /** Stamping an already stamped document changes nothing. */
  lemma UpdateVersionsIdempotent(d: Doc)
    ensures UpdateVersions(UpdateVersions(d)) == UpdateVersions(d)
  {
    var u := UpdateVersions(d);
    var v := UpdateVersions(u);
    assert Live(u) == Live(d);
    forall k | k in u.attrs
      ensures v.attrs[k] == u.attrs[k]
    {
      if k in Live(d) && d.attrs[k].version.Some? {
        assert u.attrs[k].version.Some? && u.attrs[k].localName == d.attrs[k].localName;
      }
    }
    assert v.attrs == u.attrs;
  }

  /** `_get_disallowed` over `DISALLOWED`: nothing is ever disallowed. */
  function GetDisallowed(d: Doc): (r: seq<NodeKey>)
    ensures r == []
  {
    Rules.GetDisallowed(DISALLOWED, d)
  }

  /** `_update_optionals`: for each rule in order, find its matches in the current
      document and remove them. Afterwards no element below the root matches any of the
      rules, no element was added below the root, and no attribute or header changed. */
  function UpdateOptionals(rules: seq<Rules.Rule>, d: Doc): (r: Doc)
    ensures r.header == d.header && r.attrs == d.attrs && r.root.key == d.root.key
    ensures forall k :: k in Descendants(r.root) ==> k in Descendants(d.root)
    ensures forall i, k :: 0 <= i < |rules| && k in Descendants(r.root) ==>
              !Rules.Named(r.attrs, k, rules[i].localName)
    ensures r.root == Prune(d.root, Rules.Matches(rules, d))
    ensures rules == [] ==> r == d
    decreases |rules|
  {
    if rules == [] then
      PruneNothing(d.root);
      d
    else
      var found := Rules.Find(rules[0], d);
      var pruned := RemoveAll(d, found);
      PruneAllExcludes(d.root.children, SetOf(found));
      assert forall k :: k in found ==> k in SetOf(found);
      var r := UpdateOptionals(rules[1..], pruned);
      assert forall i :: 1 <= i < |rules| ==> rules[i] == rules[1..][i - 1];
      OptionalsStep(rules, d, pruned, r);
      r
  }

  /** One step of `UpdateOptionals`: removing the first rule's matches and then the
      rest's matches in what remains removes exactly the matches of all the rules. */
  lemma OptionalsStep(rules: seq<Rules.Rule>, d: Doc, pruned: Doc, r: Doc)
    requires rules != []
    requires pruned.attrs == d.attrs && pruned.root == Prune(d.root, SetOf(Rules.Find(rules[0], d)))
    requires r.attrs == d.attrs && r.root == Prune(pruned.root, Rules.Matches(rules[1..], pruned))
    requires forall i, k :: 0 <= i < |rules| && k in Descendants(r.root) ==>
               !Rules.Named(r.attrs, k, rules[i].localName)
    ensures r.root == Prune(d.root, Rules.Matches(rules, d))
  {
    var F := SetOf(Rules.Find(rules[0], d));
    var rest := Rules.Matches(rules[1..], pruned);
    var A := F + rest;
    var M := Rules.Matches(rules, d);
    PruneCompose(d.root, F, rest);
    PruneAllExcludes(d.root.children, F);
    assert forall i :: 1 <= i < |rules| ==> rules[i] == rules[1..][i - 1];
    var X := M - A;
    assert M == A + X;
    PruneCompose(d.root, A, X);
    PruneAllAbsent(r.root.children, X);
    assert Prune(r.root, X) == r.root;
  }

  /** `_translate_fields`: each field's rewrite, in order. */
  function TranslateFields(fields: seq<Doc -> Doc>, d: Doc): (r: Doc)
    ensures fields == [] ==> r == d
    ensures |fields| == 1 ==> r == fields[0](d)
    decreases |fields|
  {
    if fields == [] then d else TranslateFields(fields[1..], fields[0](d))
  }

  /** The fields are applied in order: translating with `f + g` is translating with
      `f` and then with `g`. */
  lemma {:induction false} TranslateFieldsAppend(f: seq<Doc -> Doc>, g: seq<Doc -> Doc>, d: Doc)
    ensures TranslateFields(f + g, d) == TranslateFields(g, TranslateFields(f, d))
    decreases |f|
  {
    if f == [] {
      assert f + g == g;
    } else {
      assert (f + g)[0] == f[0] && (f + g)[1..] == f[1..] + g;
      TranslateFieldsAppend(f[1..], g, f[0](d));
    }
  }

  /** The live `check_update`: the version check only when `checkVersions` holds, then
      the duplicate and disallowed scans. `UpdateError` is raised exactly when the
      version check (if any) passes and either scan finds something, and it carries
      both complete results. */
  function CheckUpdate(d: Doc, checkVersions: bool, c: Collaborators): (r: Option<Failure>)
    ensures r.None? <==>
              (!checkVersions || RootVersion(d) == Some("1.1")) && c.duplicates(d) == [] && GetDisallowed(d) == []
    ensures (r.Some? && r.value.UpdateError?) <==>
              (!checkVersions || RootVersion(d) == Some("1.1")) && (c.duplicates(d) != [] || GetDisallowed(d) != [])
    ensures r.Some? && r.value.UpdateError? ==> r.value == UpdateError(GetDisallowed(d), c.duplicates(d))
    ensures r.Some? && !r.value.UpdateError? ==> checkVersions && r == CheckRootVersion(d)
  {
    var version := if checkVersions then CheckRootVersion(d) else None;
    match version
    case Some(e) => Some(e)
    case None =>
      var duplicates := c.duplicates(d);
      var disallowed := GetDisallowed(d);
      if disallowed != [] || duplicates != [] then Some(UpdateError(disallowed, duplicates)) else None
  }

  /** `given or scan`: a non-empty argument is used as is; `None` and an empty list
      fall back to the scan. */
  function OrScan<T>(given: Option<seq<T>>, scan: seq<T>): (r: seq<T>)
    ensures given.Some? && given.value != [] ==> r == given.value
    ensures given.None? || given.value == [] ==> r == scan
  {
    if given.Some? && given.value != [] then given.value else scan
  }

  /** The elements the live `clean` removes. */
  function DisallowedOf(d: Doc, given: Option<seq<NodeKey>>): seq<NodeKey>
  {
    OrScan(given, GetDisallowed(d))
  }

  /** The duplicates the live `clean` renames. */
  function DuplicatesOf(d: Doc, given: Option<DupMap>, c: Collaborators): DupMap
  {
    OrScan(given, c.duplicates(d))
  }

  /** The cleaned document and what `clean` leaves on the instance. */
  datatype Cleaned = Cleaned(doc: Doc, report: Report)

  /** The live `clean`: rescan whatever was not given (or given empty), rename the
      duplicates, then copy and remove the disallowed elements. The copies are taken
      after the renaming, so each carries the ids the document has after it. */
  function Clean(d: Doc, disallowed: Option<seq<NodeKey>>, duplicates: Option<DupMap>, c: Collaborators): (r: Cleaned)
    ensures r.doc.header == d.header
    ensures r.doc.root == Prune(d.root, SetOf(DisallowedOf(d, disallowed)))
    ensures r.doc.attrs.Keys == d.attrs.Keys
    ensures forall k :: k in d.attrs ==> r.doc.attrs[k] == d.attrs[k].(id := r.doc.attrs[k].id)
    ensures forall k :: k in d.attrs && !Listed(Flatten(DuplicatesOf(d, duplicates, c)), k) ==> r.doc.attrs[k] == d.attrs[k]
    ensures |r.report.cleanedFields| == |DisallowedOf(d, disallowed)|
    ensures forall i :: 0 <= i < |DisallowedOf(d, disallowed)| ==>
              r.report.cleanedFields[i].tree.key == DisallowedOf(d, disallowed)[i]
    ensures forall i :: 0 <= i < |DisallowedOf(d, disallowed)| && DisallowedOf(d, disallowed)[i] in d.attrs ==>
              var k := DisallowedOf(d, disallowed)[i];
              k in r.report.cleanedFields[i].attrs && r.report.cleanedFields[i].attrs[k] == r.doc.attrs[k]
    ensures forall i, x :: 0 <= i < |DisallowedOf(d, disallowed)| ==>
              (x in r.report.cleanedFields[i].attrs <==> x in r.doc.attrs && x in PreOrder(r.report.cleanedFields[i].tree))
    ensures forall i, x :: 0 <= i < |DisallowedOf(d, disallowed)| && x in r.report.cleanedFields[i].attrs ==>
              r.report.cleanedFields[i].attrs[x] == r.doc.attrs[x]
    ensures forall i :: 0 <= i < |DisallowedOf(d, disallowed)| ==>
              r.report.cleanedFields[i] == Snapshot(RemoveAll(d.(attrs := r.doc.attrs), DisallowedOf(d, disallowed)[..i]),
                                                    DisallowedOf(d, disallowed)[i])
    ensures DisallowedOf(d, disallowed) != [] && LocateAll(Forest(d), DisallowedOf(d, disallowed)[0]).Some? ==>
              r.report.cleanedFields[0].tree == LocateAll(Forest(d), DisallowedOf(d, disallowed)[0]).value
    ensures r.report.cleanedIds.Keys == IdsOf(Flatten(DuplicatesOf(d, duplicates, c)))
    ensures forall x :: x in r.report.cleanedIds ==>
              r.report.cleanedIds[x] == Drawn(c.newId, Flatten(DuplicatesOf(d, duplicates, c)), x, 0)
  {
    var dis := DisallowedOf(d, disallowed);
    var dups := DuplicatesOf(d, duplicates, c);
    var renamed := CleanDuplicates(d.attrs, dups, c.newId);
    var cleared := CleanDisallowed(d.(attrs := renamed.attrs), dis);
    Cleaned(cleared.doc, Report(cleared.removed, renamed.log))
  }

  /** Every reported copy is deep: with distinct keys, copy `i` is the original
      sub-tree of disallowed element `i` with the sub-trees of the elements removed
      before it cut out, so an element below an earlier-removed one is reported whole. */
  lemma CleanCopiesArePrunedOriginals(d: Doc, disallowed: Option<seq<NodeKey>>, duplicates: Option<DupMap>,
                                      c: Collaborators)
    requires Distinct(PreOrderAll(Forest(d)))
    ensures forall i :: 0 <= i < |DisallowedOf(d, disallowed)| ==>
              Clean(d, disallowed, duplicates, c).report.cleanedFields[i].tree
              == Prune(Snapshot(d, DisallowedOf(d, disallowed)[i]).tree, SetOf(DisallowedOf(d, disallowed)[..i]))
  {
    var dis := DisallowedOf(d, disallowed);
    var renamed := CleanDuplicates(d.attrs, DuplicatesOf(d, duplicates, c), c.newId);
    var e := d.(attrs := renamed.attrs);
    assert Forest(e) == Forest(d);
    CopiesArePrunedOriginals(e, dis);
    assert forall x :: Snapshot(e, x).tree == Snapshot(d, x).tree;
  }

  /** An empty argument triggers the same rescan as an absent one. */
  lemma CleanRescansWhenEmpty(d: Doc, c: Collaborators)
    ensures Clean(d, Some([]), Some([]), c) == Clean(d, None, None, c)
  {
  }

  /** Renaming precedes removal: an element that is both a duplicate (the last pair
      renaming it is pair `j`) and disallowed (position `i`) is reported with the id
      minted for it, not the one it had. */
  lemma CleanRemapsBeforeRemoving(d: Doc, dis: seq<NodeKey>, dups: DupMap, c: Collaborators, i: nat, j: nat)
    requires i < |dis| && j < |Flatten(dups)|
    requires Flatten(dups)[j].1 == dis[i] && dis[i] in d.attrs && LastRename(Flatten(dups), j)
    ensures dis[i] in Clean(d, Some(dis), Some(dups), c).report.cleanedFields[i].attrs
    ensures Clean(d, Some(dis), Some(dups), c).report.cleanedFields[i].attrs[dis[i]].id
            == Some(c.newId(Flatten(dups)[j].0, j))
  {
    assert dups != [];
    assert DisallowedOf(d, Some(dis)) == dis && DuplicatesOf(d, Some(dups), c) == dups;
    var renamed := CleanDuplicates(d.attrs, dups, c.newId);
    CleanDuplicatesWrites(d.attrs, dups, c.newId, j);
    var cleared := CleanDisallowed(d.(attrs := renamed.attrs), dis);
    assert Clean(d, Some(dis), Some(dups), c).report.cleanedFields == cleared.removed;
    assert dis[i] in renamed.attrs;
    assert cleared.removed[i].attrs[dis[i]] == renamed.attrs[dis[i]];
    assert renamed.attrs[dis[i]].id == Some(c.newId(Flatten(dups)[j].0, j));
  }

  /** The returned document carries the minted ids: the element of the `j`-th visited
      duplicate pair ends with the id of the `j`-th minter call, unless a later pair
      renames it again. */
  lemma CleanRenamesDuplicates(d: Doc, disallowed: Option<seq<NodeKey>>, duplicates: Option<DupMap>,
                               c: Collaborators, j: nat)
    requires j < |Flatten(DuplicatesOf(d, duplicates, c))|
    requires Flatten(DuplicatesOf(d, duplicates, c))[j].1 in d.attrs
    requires LastRename(Flatten(DuplicatesOf(d, duplicates, c)), j)
    ensures Flatten(DuplicatesOf(d, duplicates, c))[j].1 in Clean(d, disallowed, duplicates, c).doc.attrs
    ensures Clean(d, disallowed, duplicates, c).doc.attrs[Flatten(DuplicatesOf(d, duplicates, c))[j].1].id
            == Some(c.newId(Flatten(DuplicatesOf(d, duplicates, c))[j].0, j))
  {
    CleanDuplicatesWrites(d.attrs, DuplicatesOf(d, duplicates, c), c.newId, j);
  }

  /** Each copy in the report is the whole sub-tree: when the live keys are distinct
      and the first disallowed element hangs below the root, its copy holds exactly the
      elements its removal takes out of the live tree. */
  lemma CleanCopiesWholeSubtree(d: Doc, dis: seq<NodeKey>, dups: DupMap, c: Collaborators)
    requires Distinct(Live(d)) && dis != [] && dis[0] in Descendants(d.root)
    ensures forall x :: x in PreOrder(Clean(d, Some(dis), Some(dups), c).report.cleanedFields[0].tree) <==>
              x in Live(d) && x !in Live(Remove(d, dis[0]))
  {
    var renamed := CleanDuplicates(d.attrs, DuplicatesOf(d, Some(dups), c), c.newId);
    var e := d.(attrs := renamed.attrs);
    CopyBeforeRemove(e, dis);
    assert Live(Remove(e, dis[0])) == Live(Remove(d, dis[0]));
  }

  /** `_update`: namespaces, schema locations, versions, vocabularies, optional
      elements, field translations. With both tables empty the last two change
      nothing, so the element tree is untouched; live elements are stamped and
      translated, everything else is as it was. */
  function Rewrite(d: Doc, c: Collaborators): (r: Doc)
    ensures r.header == c.schemaLocations(c.namespaces(d.header))
    ensures r.root == d.root && r.detached == d.detached
    ensures r.attrs.Keys == d.attrs.Keys
    ensures forall k :: k in d.attrs && k !in Live(d) ==> r.attrs[k] == d.attrs[k]
    ensures forall k :: k in d.attrs && k in Live(d) ==>
              && r.attrs[k].version == (if d.attrs[k].version.Some? then Some(StampFor(d.attrs[k].localName)) else None)
              && r.attrs[k] == TranslateVocab(STIX_VOCABS, d.attrs[k]).(version := r.attrs[k].version)
  {
    var updated := d.(header := c.namespaces(d.header));
    var located := updated.(header := c.schemaLocations(updated.header));
    var versioned := UpdateVersions(located);
    var translated := UpdateVocabs(STIX_VOCABS, versioned);
    var pruned := UpdateOptionals(OPTIONAL_ELEMENTS, translated);
    TranslateFields(TRANSLATABLE_FIELDS, pruned)
  }

  /** `update`: check, then rewrite. Under `force`, an `UpdateError` or an
      `UnknownVersionError` is caught, the live `clean` rescans and cleans, and then
      the rewrite runs, without a second check. `InvalidVersionError` always
      propagates. */
  function Update(d: Doc, force: bool, c: Collaborators): (r: Run)
    ensures r.outcome.Failure? ==> CheckUpdate(d, true, c) == Some(r.outcome.error)
    ensures !force ==> (r.outcome.Failure? <==> CheckUpdate(d, true, c).Some?)
    ensures force ==> (r.outcome.Failure? <==> CheckRootVersion(d).Some? && CheckRootVersion(d).value.InvalidVersionError?)
    ensures CheckUpdate(d, true, c).None? ==> r.outcome == Success(Rewrite(d, c)) && r.report.None?
    ensures r.outcome.Success? && CheckUpdate(d, true, c).Some? ==>
              && r.outcome.value == Rewrite(Clean(d, None, None, c).doc, c)
              && r.report == Some(Clean(d, None, None, c).report)
    ensures r.outcome.Failure? ==> r.report.None?
  {
    var verdict := CheckUpdate(d, true, c);
    var decision := Decide(verdict, force, CAUGHT);
    var path := PathOf(decision, CAUGHT);
    match decision
    case Proceed => Run(path, Success(Rewrite(d, c)), None)
    case CleanThenProceed =>
      var cleaned := Clean(d, None, None, c);
      Run(path, Success(Rewrite(cleaned.doc, c)), Some(cleaned.report))
    case Propagate(e) => Run(path, Failure(e), None)
  }

  /** One `update` call walks the state machine: one check, at most one clean, `Done`
      exactly when it returns a document; it cleans exactly when forced past an
      `UpdateError` or an `UnknownVersionError`, and only then leaves a report. */
  lemma UpdateFollowsProtocol(d: Doc, force: bool, c: Collaborators)
    ensures var r := Update(d, force, c);
      && ValidPath(r.path)
      && Checking in r.path && AtMostOnce(r.path, Checking)
      && AtMostOnce(r.path, Cleaning)
      && (r.path[|r.path| - 1] == Done <==> r.outcome.Success?)
      && (Cleaning in r.path <==>
            force && CheckUpdate(d, true, c).Some? && !CheckUpdate(d, true, c).value.InvalidVersionError?)
      && (r.report.Some? <==> Cleaning in r.path)
  {
    DecisionPathValid(CheckUpdate(d, true, c), force, CAUGHT);
  }

  /** A document that passes the check is updated the same way with or without `force`. */
  lemma ForceIrrelevantWhenFeasible(d: Doc, c: Collaborators)
    requires CheckUpdate(d, true, c).None?
    ensures Update(d, true, c) == Update(d, false, c)
  {
  }

  /** The cleaned document keeps the live root, its local name and its `version`. */
  lemma CleanKeepsRoot(d: Doc, c: Collaborators)
    ensures Clean(d, None, None, c).doc.root.key == d.root.key
    ensures Live(Clean(d, None, None, c).doc) == Live(d)
    ensures RootVersion(Clean(d, None, None, c).doc) == RootVersion(d)
    ensures d.root.key in d.attrs ==>
              Clean(d, None, None, c).doc.attrs[d.root.key].localName == d.attrs[d.root.key].localName
  {
    assert DisallowedOf(d, None) == [];
    assert SetOf([]) == {};
    PruneNothing(d.root);
  }

  /** The update is a single step: a 1.1 document, once updated, declares the stamped
      version, so updating it again fails with `InvalidVersionError`, forced or not. */
  lemma UpdateIsSingleStep(d: Doc, force: bool, force': bool, c: Collaborators)
    requires RootVersion(d) == Some("1.1")
    requires Update(d, force, c).outcome.Success?
    ensures d.root.key in d.attrs
    ensures Update(Update(d, force, c).outcome.value, force', c).outcome
            == Failure(InvalidVersionError("1.1", StampFor(d.attrs[d.root.key].localName)))
  {
    var k := d.root.key;
    var u := Update(d, force, c).outcome.value;
    assert k in Live(d);
    if CheckUpdate(d, true, c).Some? {
      CleanKeepsRoot(d, c);
      var e := Clean(d, None, None, c).doc;
      assert k in Live(e) && e.attrs[k].version == Some("1.1");
      assert u.attrs[k].version == Some(StampFor(d.attrs[k].localName));
    }
    assert u.root.key == k && RootVersion(u) == Some(StampFor(d.attrs[k].localName));
  }

  /** A live `AvailabilityLossTypeVocab-1.0` element comes out of a successful update as
      `AvailabilityLossTypeVocab-1.1.1`, with the misspelt term corrected. */
  lemma UpdateCorrectsAvailabilityLoss(d: Doc, force: bool, c: Collaborators, k: NodeKey)
    requires Update(d, force, c).outcome.Success?
    requires k in Live(d) && k in d.attrs
    requires d.attrs[k].xsiType == Some("AvailabilityLossTypeVocab-1.0") && d.attrs[k].text == Some("Degredation")
    ensures k in Update(d, force, c).outcome.value.attrs
    ensures Update(d, force, c).outcome.value.attrs[k].xsiType == Some("AvailabilityLossTypeVocab-1.1.1")
    ensures Update(d, force, c).outcome.value.attrs[k].text == Some("Degradation")
  {
    var a := d.attrs[k];
    StixVocabTable(a);
    if CheckUpdate(d, true, c).Some? {
      CleanKeepsRoot(d, c);
      var e := Clean(d, None, None, c).doc;
      assert k in Live(e) && e.attrs[k].xsiType == a.xsiType && e.attrs[k].text == a.text;
      StixVocabTable(e.attrs[k]);
    }
  }
}
