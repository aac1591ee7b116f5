# stix-ramrod version migration, modelled in Dafny

This project models the version-migration engine of stix-ramrod for two of its
updaters:

- `CYBOX_2_0_Updater` moves CybOX 2.0 documents to 2.0.1.
- `STIX_1_1_Updater` moves STIX 1.1 documents to 1.1.1.

Each updater follows the same protocol. `check_update` decides whether a document can
be updated and raises an error when it cannot. `_update` applies the ordered rewrite
passes. `update` runs the check and then the rewrite. Under `force`, `update` catches
some errors, runs `clean` to discard what cannot be migrated, and then rewrites,
without a second check.

The model is functional:

- A document is a tree of stable element identities plus one attribute store keyed by
  identity (`Document`). Sub-trees cut from the live tree stay available, as they do in
  the original. A copy taken after an ancestor was removed is therefore still the
  element's whole sub-tree (`Excision.SnapshotAfterRemove`,
  `Excision.CopiesArePrunedOriginals`). These results assume that each element occurs
  once across the live tree and the detached sub-trees (`Document.Distinct`), as element
  objects do.
- Errors are values (`Protocol.Failure`). `check_update` returns `None` when it would
  return normally.
- The instance attributes `cleaned_fields` and `cleaned_ids` become a returned
  `Protocol.Report`.
- The `try`/`except` of `update` is a small state machine (`Protocol.Phase`).

Modules:

- `Wrappers`: `Option` and `Result`.
- `Document`: elements, trees, document order, and pruning of sub-trees.
- `Excision`: deep copy, `remove_xml_element`, `remove_xml_elements`, and
  `_clean_disallowed`.
- `Rules`: locator rules and the `_get_disallowed` scan.
- `Duplicates`: `_clean_duplicates` and the `cleaned_ids` log.
- `Vocabulary`: the vocabulary tables and `_update_vocabs`.
- `Namespaces`: representative entries of the namespace and schema-location tables.
- `Protocol`: the errors, `_check_version`, the collaborators, the fallback decision
  and the phase machine.
- `CyboxUpdate` and `StixUpdate`: the two updaters.

Passes whose bodies are not part of this model are parameters, bundled in
`Protocol.Collaborators`:

- `_update_namespaces` and `_update_schemalocs` are functions of the root's namespace
  header. By their type they cannot touch elements.
- `_get_duplicates` is a function of the document.
- `create_new_id` is a function of the original id and of the ordinal of the call
  within one clean.

`_get_versioned_nodes`, rule `find` and `_update_vocabs` are given the behaviour their
names describe:

- `_get_versioned_nodes`: the live elements, the root included, that carry a `version`.
- `find`: the proper descendants of the root with the rule's local name.
- `_update_vocabs`: each live element whose type is a deprecated vocabulary gets the
  successor type and its corrected term.

Three behaviours of the code are worth noting, and the model keeps them:

- `_get_disallowed` concatenates the rules' results. An element matched by two rules
  is reported twice (`Rules.RepeatedMatchReportedTwice`).
- CybOX `_update_versions` does nothing. An updated CybOX document still declares 2.0
  and, when no disallowed element is found, can be updated again
  (`CyboxUpdate.UpdateKeepsDeclaredVersion`). The
  one-step-only boundary holds for STIX (`StixUpdate.UpdateIsSingleStep`).
- `_clean_duplicates` renames every element listed under an id, including the first.
  Whether the first occurrence keeps its id depends on what `_get_duplicates` lists.

## Model

| member | source | states |
|---|---|---|
| Protocol.CheckVersion | ramrod/cybox/update.py:199-207 | An absent or empty version gives UnknownVersionError. Any other version than the expected one gives InvalidVersionError carrying the expected and the found value. Only the expected version passes, and the check never raises UpdateError. |
| Protocol.Decide | ramrod/stix/stix_1_1.py:270-281 | A passing check proceeds. A caught error kind under `force` leads to clean-then-rewrite. Every other error propagates unchanged. |
| Protocol.DecisionPathValid | ramrod/stix/stix_1_1.py:270-281 | Every decision walks a valid path of the phase machine. It checks exactly once, cleans at most once and only when it decided to, and ends in Done exactly when no error propagates. |
| CyboxUpdate.CheckRootVersion | ramrod/cybox/update.py:199-207 | The root passes exactly when it declares `2.0`. An absent or empty version is unknown. Any other value is invalid, with expected `2.0` and the found value. |
| CyboxUpdate.CheckUpdate | ramrod/cybox/update.py:210-231 | UpdateError is raised exactly when the version passes and the disallowed scan is non-empty, and it carries the complete scan. Other errors are the version check's. |
| CyboxUpdate.Rewrite | ramrod/cybox/update.py:238-245 | The header gets namespaces, then schema locations. The tree and every `version` are unchanged. Live elements are vocabulary-translated with the CybOX tables, and detached ones are untouched. |
| CyboxUpdate.Update | ramrod/cybox/update.py:248-257 | Without force, update fails exactly when the check fails, with the check's error. With force, it fails exactly on a version error, since only UpdateError is caught. Every success equals one rewrite of the original document, because `clean` does nothing. |
| CyboxUpdate.UpdateFollowsProtocol | ramrod/cybox/update.py:248-257 | The call is a valid phase path with one check and at most one clean. It cleans exactly when forced past an UpdateError. |
| CyboxUpdate.ForceIrrelevantWhenFeasible | ramrod/cybox/update.py:248-257 | A document that passes the check is updated identically with or without force. |
| CyboxUpdate.UpdateKeepsDeclaredVersion | ramrod/cybox/update.py:195-196 | After a successful update the root still declares its old version, and that version passes the check again. |
| Rules.Find | ramrod/stix/stix_1_1.py:111 | A rule finds exactly the descendants of the root with its local name. |
| Rules.GetDisallowed | ramrod/stix/stix_1_1.py:115-122 | An element is reported exactly when some rule finds it. The result is empty exactly when every rule finds nothing. |
| Rules.GetDisallowedSingle | ramrod/stix/stix_1_1.py:118-120 | With one rule the scan is exactly that rule's `find`, in its order. |
| Rules.GetDisallowedAppend | ramrod/stix/stix_1_1.py:118-122 | The scan keeps rule order: scanning `a + b` yields `a`'s scan followed by `b`'s. |
| Rules.Matches | ramrod/stix/stix_1_1.py:110-112 | An element is a match exactly when it is below the root and some rule's local name is its own. |
| Rules.RepeatedMatchReportedTwice | ramrod/stix/stix_1_1.py:115-122 | Two rules matching the same element report it at two positions: the concatenation does not merge duplicates. |
| Excision.Snapshot | ramrod/stix/stix_1_1.py:227 | The copy is the whole located sub-tree of the element, wherever it now hangs. Its attribute store holds exactly the stored elements of that sub-tree, with their current attributes. |
| Excision.Remove | ramrod/stix/stix_1_1.py:228 | The element is no longer below the live root. Attributes and header are untouched. |
| Excision.SnapshotAfterRemove | ramrod/stix/stix_1_1.py:227-228 | With distinct keys, removal keeps the keys distinct. A later copy of any element is its original sub-tree with the removed sub-tree cut out, so an element below the removed one is still copied whole from the detached sub-tree. |
| Excision.RemoveAll | ramrod/stix/stix_1_1.py:112 | The live tree loses exactly the sub-trees of the listed elements. Attributes and header are untouched. |
| Excision.CleanDisallowed | ramrod/stix/stix_1_1.py:223-231 | The returned list has the input's length and order. Entry i is the deep copy of element i taken after elements 0..i-1 were removed. Each copy carries exactly the stored attributes of its sub-tree. The first copy is the element's whole sub-tree. The live tree loses exactly the listed sub-trees. |
| Excision.CopiesArePrunedOriginals | ramrod/stix/stix_1_1.py:226-229 | With distinct keys, copy i is the original sub-tree of element i with the sub-trees of elements 0..i-1 cut out. An element nested below an earlier-removed one is copied whole. |
| Excision.CopyBeforeRemove | ramrod/stix/stix_1_1.py:226-229 | With distinct live keys and a first element below the root, the first copy holds exactly the elements its removal takes out of the live tree. |
| Excision.CleanDisallowedDetaches | ramrod/stix/stix_1_1.py:223-231 | Afterwards no listed element is attached below the root and nothing new is. The live tree equals that of plain removal, so taking copies changes nothing. |
| Duplicates.CleanDuplicates | ramrod/stix/stix_1_1.py:234-245 | Only the `id` of listed elements changes. The log has exactly the visited ids, each with the ids minted for it in visiting order, and starts empty. |
| Duplicates.CleanDuplicatesWrites | ramrod/stix/stix_1_1.py:241-244 | The element of the j-th visited pair ends with the id of the j-th minter call, unless a later pair renames it again. |
| Duplicates.CleanedIdsMatchDuplicates | ramrod/stix/stix_1_1.py:240-245 | With distinct ids, every id with a non-empty group is logged with exactly as many new ids as its group has elements. |
| Vocabulary.TranslateVocab | ramrod/stix/stix_1_1.py:84-86 | An element whose type is a deprecated vocabulary gets the successor type and its corrected term. Every other attribute, and every other element, is unchanged. |
| Vocabulary.UpdateVocabs | ramrod/stix/stix_1_1.py:263 | Every live element is translated, detached ones are not, and the tree and header are unchanged. |
| Vocabulary.TranslateIdempotent | ramrod/stix/stix_1_1.py:13-19 | With a table whose successors are not themselves deprecated, translating twice equals translating once. |
| Vocabulary.StixVocabTable | ramrod/stix/stix_1_1.py:13-19 | The STIX table touches only `AvailabilityLossTypeVocab-1.0`. It becomes `-1.1.1`, with `Degredation` corrected to `Degradation`. |
| Vocabulary.CyboxVocabTable | ramrod/cybox/update.py:183-189 | The CybOX tables touch only `EventTypeVocab-1.0`. It becomes `-1.0.1`, with `Anomoly Events` corrected to `Anomaly Events`. |
| Namespaces.StixCiqIdentityUnlocated | ramrod/stix/stix_1_1.py:41 | The `stix-stix-ciq` namespace has no schema-location entry, while its neighbours do. |
| Namespaces.CyboxEntriesLocated | ramrod/cybox/update.py:12-181 | Every modelled CybOX namespace has a schema-location entry. |
| StixUpdate.CheckRootVersion | ramrod/stix/stix_1_1.py:210-211 | The root passes exactly when it declares `1.1`. An absent or empty version is unknown. Any other value is invalid, with expected `1.1`. |
| StixUpdate.VersionedNodes | ramrod/stix/stix_1_1.py:174 | Exactly the live elements carrying a `version` attribute. |
| StixUpdate.StampAll | ramrod/stix/stix_1_1.py:175-182 | Each listed element gets `2.1.1` if named `Indicator`, else `1.1.1`. Unlisted elements are untouched. |
| StixUpdate.UpdateVersions | ramrod/stix/stix_1_1.py:173-182 | Live versioned elements are stamped by local name and nothing else about them changes. Unversioned or detached elements are untouched. |
| StixUpdate.UpdateVersionsIdempotent | ramrod/stix/stix_1_1.py:173-182 | Stamping twice equals stamping once. |
| StixUpdate.GetDisallowed | ramrod/stix/stix_1_1.py:88-89 | With no disallowed rules the scan is always empty. |
| StixUpdate.UpdateOptionals | ramrod/stix/stix_1_1.py:106-112 | The live tree loses exactly the sub-trees of the original matches of the rules, and nothing else. Afterwards no element below the root matches any rule. Attributes and header are unchanged, and with no rules the document is unchanged. |
| StixUpdate.TranslateFields | ramrod/stix/stix_1_1.py:101-103 | With no fields the document is unchanged, and one field applies its rewrite. |
| StixUpdate.TranslateFieldsAppend | ramrod/stix/stix_1_1.py:102-103 | Fields apply in table order: translating with `f + g` is translating with `f`, then with `g`. |
| StixUpdate.CheckUpdate | ramrod/stix/stix_1_1.py:190-220 | The version is checked only if asked. UpdateError is raised exactly when that passes and either scan is non-empty, carrying both complete results. Otherwise the check returns. |
| StixUpdate.Clean | ramrod/stix/stix_1_1.py:248-256 | A missing or empty argument is rescanned. Duplicates are renamed, then the disallowed elements are copied and cut. Copy i is the deep copy of element i, taken from the renamed document after elements 0..i-1 were removed, and carries exactly the stored attributes of its sub-tree with the renamed ids. Only ids change in the store, and the report logs copies and minted ids. |
| StixUpdate.CleanRenamesDuplicates | ramrod/stix/stix_1_1.py:240-245 | The returned document carries the minted ids: the element of the j-th visited duplicate pair ends with the j-th minted id, unless a later pair renames it again. |
| StixUpdate.CleanCopiesArePrunedOriginals | ramrod/stix/stix_1_1.py:252-253 | With distinct keys, reported copy i is the original sub-tree of disallowed element i with the sub-trees of elements 0..i-1 cut out. An element below an earlier-removed one is reported whole. |
| StixUpdate.CleanCopiesWholeSubtree | ramrod/stix/stix_1_1.py:252-253 | With distinct live keys and a first disallowed element below the root, its reported copy holds exactly the elements its removal takes out of the live tree. |
| StixUpdate.CleanRescansWhenEmpty | ramrod/stix/stix_1_1.py:249-250 | Empty arguments behave exactly like absent ones. |
| StixUpdate.CleanRemapsBeforeRemoving | ramrod/stix/stix_1_1.py:252-253 | An element both duplicate and disallowed is reported in `cleaned_fields` with its newly minted id. |
| StixUpdate.CleanKeepsRoot | ramrod/stix/stix_1_1.py:248-256 | The forced clean keeps the live tree, the root's name and the root's version, since the disallowed scan is empty. |
| StixUpdate.Rewrite | ramrod/stix/stix_1_1.py:259-267 | The header gets namespaces then schema locations. The tree is unchanged because the optional and field tables are empty. Each live element is stamped if versioned and vocabulary-translated, and nothing else changes. |
| StixUpdate.Update | ramrod/stix/stix_1_1.py:270-281 | Without force, update fails exactly when the check fails, with its error. With force, only InvalidVersionError propagates. A forced success equals one rescanning clean followed by one rewrite, with the clean's report. |
| StixUpdate.UpdateFollowsProtocol | ramrod/stix/stix_1_1.py:270-281 | The call is a valid phase path with one check and at most one clean. It cleans, and reports, exactly when forced past UpdateError or UnknownVersionError. |
| StixUpdate.ForceIrrelevantWhenFeasible | ramrod/stix/stix_1_1.py:270-281 | A document that passes the check is updated identically with or without force. |
| StixUpdate.UpdateIsSingleStep | ramrod/stix/stix_1_1.py:173-182 | Once updated, a 1.1 document declares the stamped version. Updating it again fails with InvalidVersionError, forced or not. |
| StixUpdate.UpdateCorrectsAvailabilityLoss | ramrod/stix/stix_1_1.py:84-86 | A live `AvailabilityLossTypeVocab-1.0` element comes out of any successful update as `-1.1.1`, with `Degredation` corrected. |

## Left out

- Parsing, serialising and the lxml mechanics are not modelled: `etree.QName`, the internals of `copy.deepcopy`, and the namespace-prefix resolution of `xsi:type`. A deep copy is a value snapshot, and removal detaches a sub-tree from its parent.
- `_update_namespaces`, `_update_schemalocs` and `_get_duplicates` are inherited from base classes that are not part of this model. `create_new_id` is imported from `ramrod/utils.py`, which is not part of this model either. They are parameters (`Protocol.Collaborators`). The model does not assume that new ids are fresh or that the first duplicate keeps its id.
- `create_new_id` is abstracted as a parameter, applied to the original id and the call's ordinal within one clean.
- The full namespace and schema-location tables are static data. `Namespaces` holds a few representative entries of each.
- The first definitions of `check_update` and `clean` in `ramrod/stix/stix_1_1.py` (lines 125-170) are shadowed by the later ones and are not modelled.
- The loop after the STIX class that wires `NSMAP` into the rule classes runs over empty tuples. It has no behavioural effect and is not modelled.
- `cleaned_fields` and `cleaned_ids` are per-instance mutable state in the original. Here they are the fields of a returned report, and concurrent use of one updater instance is not modelled.
- The rewrite passes (namespaces, schema locations, versions, vocabularies, optional elements, field translations) are modelled as never raising. In the original, the first `_update` call sits inside the same `try` as `check_update` (`ramrod/stix/stix_1_1.py:271-273`, `ramrod/cybox/update.py:249-251`). A caught error raised by a pass would lead to `clean` and a second `_update` on a partly rewritten tree. The phase machine therefore has no edge from `Rewriting` back to `Infeasible`.
- `_update_cybox` (the embedded-schema delegate) is never called by `_update`. It is not modelled.
- Rule scoping by parent element and by `xsi:type` (`typed` in `_update_optionals`) is not modelled. A rule matches by local name only. The STIX rule tables are empty, and the CybOX rules are a parameter.
- Excision.Remove: removing an element with no parent (the root, or one already removed) leaves the document unchanged. `remove_xml_element` (`ramrod/utils.py`) is not part of this model and may raise instead.
- StixUpdate.CheckRootVersion: the STIX `_check_version` is inherited from `ramrod/stix/__init__.py`, which is not part of this model. It is modelled like the CybOX one, with expected version `1.1`.
- CyboxUpdate.CheckUpdate: the original passes the disallowed list to `UpdateError` positionally. The exception's constructor is not part of this model, and the list is kept as the error's disallowed field.
- CyboxUpdate.CheckUpdate: CybOX's `DISALLOWED` table and its `_get_disallowed` are inherited from a base class that is not part of this model. The rules are a parameter, and the scan is modelled as the same in-order concatenation of each rule's `find` as the STIX one.
- Vocabulary.CyboxVocabTable: CybOX keeps one global term table next to the type-name table. The model attaches the term table to the single renamed type. Other element types are not corrected, since `_update_vocabs` itself is not part of this model.
- StixUpdate.TranslateFields: a field's `translate` is not part of this model and is modelled as an arbitrary whole-document rewrite. The STIX table is empty.
- CyboxUpdate.Clean and CyboxUpdate.UpdateVersions do nothing. They are the identity, and their effect is stated through `CyboxUpdate.Update` and `CyboxUpdate.UpdateKeepsDeclaredVersion`.
