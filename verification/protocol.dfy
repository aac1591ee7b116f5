/** What both updaters share: the errors they raise, the version check, the collaborators
    whose bodies live outside the updaters, and the check / clean / rewrite state
    machine of one `update` call. */
module Protocol {
  import opened Wrappers
  import opened Document
  import opened Duplicates

  /** The exceptions the pipeline raises. */
  datatype Failure =
    | UnknownVersionError
    | InvalidVersionError(expected: string, found: string)
    | UpdateError(disallowed: seq<NodeKey>, duplicates: DupMap)

  /** The exception classes an `except` clause can name. */
  datatype ErrorKind = UnknownVersion | InvalidVersion | NotUpdatable

  function KindOf(e: Failure): ErrorKind
  {
    match e
    case UnknownVersionError => UnknownVersion
    case InvalidVersionError(_, _) => InvalidVersion
    case UpdateError(_, _) => NotUpdatable
  }

  /** `_check_version`: `None` when the check returns normally. An absent or empty
      version is unknown; any other version than `expected` is invalid. */
  function CheckVersion(found: Option<string>, expected: string): (r: Option<Failure>)
    ensures r.None? <==> found.Some? && found.value != "" && found.value == expected
    ensures r == Some(UnknownVersionError) <==> found.None? || found.value == ""
    ensures r.Some? && r.value.InvalidVersionError? <==>
              found.Some? && found.value != "" && found.value != expected
    ensures r.Some? && r.value.InvalidVersionError? ==> r.value == InvalidVersionError(expected, found.value)
    ensures r.Some? ==> !r.value.UpdateError?
  {
    if found.None? || found.value == "" then Some(UnknownVersionError)
    else if found.value != expected then Some(InvalidVersionError(expected, found.value))
    else None
  }

  /** The passes and helpers whose bodies are not part of this model, as parameters.
      The two rewriters see only the root's namespace header, so by their type they
      cannot touch the elements. */
  datatype Collaborators = Collaborators(
    namespaces: Header -> Header,       // `_update_namespaces`
    schemaLocations: Header -> Header,  // `_update_schemalocs`
    duplicates: Doc -> DupMap,          // `_get_duplicates`
    newId: IdMinter)                    // `create_new_id`

  /** The per-call report `clean` leaves: deep copies of the removed elements
      (`cleaned_fields`) and the ids minted per original id (`cleaned_ids`). */
  datatype Report = Report(cleanedFields: seq<Fragment>, cleanedIds: map<string, seq<string>>)

  /** What the `try`/`except` around the check decides. */
  datatype Decision = Proceed | CleanThenProceed | Propagate(error: Failure)

  /** The fallback of `update`: a passing check proceeds to the rewrite; an error whose
      kind is caught, under `force`, leads to one clean and one rewrite; every other
      error propagates unchanged. */
  function Decide(verdict: Option<Failure>, force: bool, caught: set<ErrorKind>): (r: Decision)
    ensures r == Proceed <==> verdict.None?
    ensures r == CleanThenProceed <==> verdict.Some? && force && KindOf(verdict.value) in caught
    ensures r.Propagate? ==> verdict == Some(r.error)
  {
    match verdict
    case None => Proceed
    case Some(e) => if force && KindOf(e) in caught then CleanThenProceed else Propagate(e)
  }

  /** The states of one `update` call. */
  datatype Phase = Unchecked | Checking | Feasible | Infeasible | Cleaning | Rewriting | Done | Failed

  /** The transitions of one `update` call. An error the updater does not catch fails
      the call straight from `Checking`; a caught one goes through `Infeasible`. There is
      no way back to `Checking` and no second `Cleaning`. */
  predicate Next(p: Phase, q: Phase)
  {
    match p
    case Unchecked => q == Checking
    case Checking => q in {Feasible, Infeasible, Failed}
    case Feasible => q == Rewriting
    case Infeasible => q in {Cleaning, Failed}
    case Cleaning => q == Rewriting
    case Rewriting => q == Done
    case Done => false
    case Failed => false
  }

  predicate ValidPath(path: seq<Phase>)
  {
    && |path| >= 2
    && path[0] == Unchecked
    && (forall i :: 0 <= i < |path| - 1 ==> Next(path[i], path[i + 1]))
    && path[|path| - 1] in {Done, Failed}
  }

  /** The states a call passes through: a caught error is `Infeasible` before the call
      either cleans or (without `force`) fails. */
  function PathOf(decision: Decision, caught: set<ErrorKind>): seq<Phase>
  {
    match decision
    case Proceed => [Unchecked, Checking, Feasible, Rewriting, Done]
    case CleanThenProceed => [Unchecked, Checking, Infeasible, Cleaning, Rewriting, Done]
    case Propagate(e) =>
      if KindOf(e) in caught then [Unchecked, Checking, Infeasible, Failed]
      else [Unchecked, Checking, Failed]
  }

  /** `p` appears at no two positions of `path`. */
  predicate AtMostOnce(path: seq<Phase>, p: Phase)
  {
    forall i, j :: 0 <= i < j < |path| && path[i] == p ==> path[j] != p
  }

  /** Every decision walks a valid path of the state machine, checks exactly once and
      cleans at most once, cleaning exactly when it decided to and ending in `Done`
      exactly when it did not propagate an error. */
  lemma DecisionPathValid(verdict: Option<Failure>, force: bool, caught: set<ErrorKind>)
    ensures var path := PathOf(Decide(verdict, force, caught), caught);
      && ValidPath(path)
      && Checking in path && AtMostOnce(path, Checking)
      && AtMostOnce(path, Cleaning)
      && (Cleaning in path <==> Decide(verdict, force, caught) == CleanThenProceed)
      && (path[|path| - 1] == Done <==> !Decide(verdict, force, caught).Propagate?)
  {
    var decision := Decide(verdict, force, caught);
    var path := PathOf(decision, caught);
    match decision
    case Proceed =>
      assert path == [Unchecked, Checking, Feasible, Rewriting, Done];
    case CleanThenProceed =>
      assert path == [Unchecked, Checking, Infeasible, Cleaning, Rewriting, Done];
    case Propagate(e) =>
      assert path == [Unchecked, Checking, Infeasible, Failed] || path == [Unchecked, Checking, Failed];
  }

  /** The result of one `update` call: the path it took, the updated document or the
      error it raised, and the report if it cleaned. */
  datatype Run = Run(path: seq<Phase>, outcome: Result<Doc, Failure>, report: Option<Report>)
}
