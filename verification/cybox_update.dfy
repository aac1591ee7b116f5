/** `CYBOX_2_0_Updater`: CybOX 2.0 to 2.0.1. */
module CyboxUpdate {
  import opened Wrappers
  import opened Document
  import opened Rules
  import opened Vocabulary
  import opened Protocol

  /** `CYBOX_2_0_Updater.CYBOX_VERSION`. */
  const CYBOX_VERSION: string := "2.0"

  /** `update` catches `UpdateError` only. */
  const CAUGHT: set<ErrorKind> := {NotUpdatable}

  /** `_check_version`: a root without a (non-empty) `version` is unknown, any version
      other than `2.0` is invalid, `2.0` passes. */
  function CheckRootVersion(d: Doc): (r: Option<Failure>)
    ensures r.None? <==> RootVersion(d) == Some("2.0")
    ensures r == Some(UnknownVersionError) <==> RootVersion(d).None? || RootVersion(d) == Some("")
    ensures r.Some? && r.value.InvalidVersionError? <==>
              RootVersion(d).Some? && RootVersion(d).value !in {"", "2.0"}
    ensures r.Some? && r.value.InvalidVersionError? ==> r.value == InvalidVersionError("2.0", RootVersion(d).value)
  {
    CheckVersion(RootVersion(d), CYBOX_VERSION)
  }

  /** `check_update`: the version check, then the disallowed scan (the scan's rules
      belong to the base updater and are a parameter here). `UpdateError` is raised
      exactly when the version passes and the scan finds something, and carries the
      scan's complete list. */
  function CheckUpdate(d: Doc, rules: seq<Rule>): (r: Option<Failure>)
    ensures r.None? <==> RootVersion(d) == Some("2.0") && GetDisallowed(rules, d) == []
    ensures (r.Some? && r.value.UpdateError?) <==> RootVersion(d) == Some("2.0") && GetDisallowed(rules, d) != []
    ensures r.Some? && r.value.UpdateError? ==> r.value == UpdateError(GetDisallowed(rules, d), [])
    ensures r.Some? && !r.value.UpdateError? ==> r == CheckRootVersion(d)
  {
    match CheckRootVersion(d)
    case Some(e) => Some(e)
    case None =>
      var disallowed := GetDisallowed(rules, d);
      if disallowed != [] then Some(UpdateError(disallowed, [])) else None
  }

  /** `clean`: does nothing. */
  function Clean(d: Doc): Doc
  {
    d
  }

  /** `_update_versions`: does nothing. */
  function UpdateVersions(d: Doc): Doc
  {
    d
  }

  /** `_update`: namespaces, then schema locations, then versions, then vocabularies.
      The element tree is untouched and no `version` attribute changes; only the header
      and the vocabulary-typed live elements change. */
  function Rewrite(d: Doc, c: Collaborators): (r: Doc)
    ensures r.header == c.schemaLocations(c.namespaces(d.header))
    ensures r.root == d.root && r.detached == d.detached
    ensures r.attrs.Keys == d.attrs.Keys
    ensures forall k :: k in d.attrs && k !in Live(d) ==> r.attrs[k] == d.attrs[k]
    ensures forall k :: k in d.attrs && k in Live(d) ==> r.attrs[k] == TranslateVocab(CYBOX_VOCABS, d.attrs[k])
    ensures forall k :: k in d.attrs ==> r.attrs[k].version == d.attrs[k].version
  {
    var updated := d.(header := c.namespaces(d.header));
    var located := updated.(header := c.schemaLocations(updated.header));
    UpdateVocabs(CYBOX_VOCABS, UpdateVersions(located))
  }

  /** `update`: check, then rewrite. Under `force` an `UpdateError` is caught, `clean`
      runs, and then the rewrite runs, without a second check; version errors
      propagate even under `force`. */
  function Update(d: Doc, force: bool, rules: seq<Rule>, c: Collaborators): (r: Run)
    ensures r.report.None?
    ensures r.outcome.Failure? ==> CheckUpdate(d, rules) == Some(r.outcome.error)
    ensures !force ==> (r.outcome.Failure? <==> CheckUpdate(d, rules).Some?)
    ensures force ==> (r.outcome.Failure? <==> CheckRootVersion(d).Some?)
    ensures r.outcome.Success? ==> r.outcome.value == Rewrite(d, c)
  {
    var verdict := CheckUpdate(d, rules);
    var decision := Decide(verdict, force, CAUGHT);
    var path := PathOf(decision, CAUGHT);
    match decision
    case Proceed => Run(path, Success(Rewrite(d, c)), None)
    case CleanThenProceed => Run(path, Success(Rewrite(Clean(d), c)), None)
    case Propagate(e) => Run(path, Failure(e), None)
  }

  /** One `update` call walks the state machine: one check, at most one clean, `Done`
      exactly when it returns a document. */
  lemma UpdateFollowsProtocol(d: Doc, force: bool, rules: seq<Rule>, c: Collaborators)
    ensures var r := Update(d, force, rules, c);
      && ValidPath(r.path)
      && Checking in r.path && AtMostOnce(r.path, Checking)
      && AtMostOnce(r.path, Cleaning)
      && (r.path[|r.path| - 1] == Done <==> r.outcome.Success?)
      && (Cleaning in r.path <==> force && CheckUpdate(d, rules).Some? && CheckUpdate(d, rules).value.UpdateError?)
  {
    DecisionPathValid(CheckUpdate(d, rules), force, CAUGHT);
  }

  /** A document that passes the check is updated the same way with or without `force`. */
  lemma ForceIrrelevantWhenFeasible(d: Doc, rules: seq<Rule>, c: Collaborators)
    requires CheckUpdate(d, rules).None?
    ensures Update(d, true, rules, c).outcome == Update(d, false, rules, c).outcome == Success(Rewrite(d, c))
  {
  }

  /** `_update_versions` does nothing, so an updated 2.0 document still declares 2.0 and
      passes the version check again: the CybOX update can be repeated. */
  lemma UpdateKeepsDeclaredVersion(d: Doc, force: bool, rules: seq<Rule>, c: Collaborators)
    requires Update(d, force, rules, c).outcome.Success?
    ensures RootVersion(Update(d, force, rules, c).outcome.value) == RootVersion(d)
    ensures CheckRootVersion(Update(d, force, rules, c).outcome.value).None?
  {
  }
}
