/** Controlled-vocabulary translation: the vocabulary-type and term tables of the two
    updaters, and what applying them does to one element. */
module Vocabulary {
  import opened Wrappers
  import opened Document

  /** A vocabulary descriptor (`Vocab`): its type identifier, display name, reference
      URI and the term corrections it carries. */
  datatype Vocab = Vocab(typeId: string, name: string, reference: string, terms: map<string, string>)

  /** Deprecated vocabulary-type identifier |-> the vocabulary that replaces it. */
  type VocabTable = map<string, Vocab>

  /** `AvailabilityLossVocab`: the STIX 1.1.1 availability-loss vocabulary. */
  const AVAILABILITY_LOSS: Vocab := Vocab(
    "AvailabilityLossTypeVocab-1.1.1",
    "STIX Default Availability Loss Type Vocabulary",
    "http://stix.mitre.org/XMLSchema/default_vocabularies/1.1.1/stix_default_vocabularies.xsd#AvailabilityLossTypeVocab-1.1.1",
    map["Degredation" := "Degradation"])

  /** `STIX_1_1_Updater.UPDATE_VOCABS`. */
  const STIX_VOCABS: VocabTable := map["AvailabilityLossTypeVocab-1.0" := AVAILABILITY_LOSS]

  /** `CYBOX_2_0_Updater.UPDATE_VOCAB_NAMES`. */
  const CYBOX_VOCAB_NAMES: map<string, string> := map["EventTypeVocab-1.0" := "EventTypeVocab-1.0.1"]

  /** `CYBOX_2_0_Updater.UPDATE_VOCAB_TERMS`. */
  const CYBOX_VOCAB_TERMS: map<string, string> := map["Anomoly Events" := "Anomaly Events"]

  /** The CybOX tables in the shape of a `VocabTable`: each renamed type carries the
      (single, shared) term table. */
  const CYBOX_VOCABS: VocabTable :=
    map t | t in CYBOX_VOCAB_NAMES :: Vocab(CYBOX_VOCAB_NAMES[t], "", "", CYBOX_VOCAB_TERMS)

  /** Applying `table` to one element: an element whose type discriminator is a key of
      the table gets the successor type, and its text is corrected if it is a known
      misspelling. Every other element is left as it is. */
  function TranslateVocab(table: VocabTable, a: Attrs): (r: Attrs)
    ensures a.xsiType.None? || a.xsiType.value !in table ==> r == a
    ensures a.xsiType.Some? && a.xsiType.value in table ==>
      var v := table[a.xsiType.value];
      && r == a.(xsiType := r.xsiType, text := r.text)
      && r.xsiType == Some(v.typeId)
      && (a.text.Some? && a.text.value in v.terms ==> r.text == Some(v.terms[a.text.value]))
      && (a.text.None? || a.text.value !in v.terms ==> r.text == a.text)
  {
    if a.xsiType.Some? && a.xsiType.value in table then
      var v := table[a.xsiType.value];
      var text := if a.text.Some? && a.text.value in v.terms then Some(v.terms[a.text.value]) else a.text;
      a.(xsiType := Some(v.typeId), text := text)
    else a
  }

  /** `_update_vocabs`: `table` applied to every live element. The tree, the header and
      the detached elements are untouched. */
  function UpdateVocabs(table: VocabTable, d: Doc): (r: Doc)
    ensures r.header == d.header && r.root == d.root && r.detached == d.detached
    ensures r.attrs.Keys == d.attrs.Keys
    ensures forall k :: k in d.attrs && k in Live(d) ==> r.attrs[k] == TranslateVocab(table, d.attrs[k])
    ensures forall k :: k in d.attrs && k !in Live(d) ==> r.attrs[k] == d.attrs[k]
  {
    d.(attrs := map k | k in d.attrs :: if k in Live(d) then TranslateVocab(table, d.attrs[k]) else d.attrs[k])
  }

  /** No successor type is itself a deprecated key, and no corrected term is itself a
      misspelling: a table after which nothing is left to translate. */
  predicate Settled(table: VocabTable)
  {
    && (forall t :: t in table ==> table[t].typeId !in table)
    && (forall t, w :: t in table && w in table[t].terms ==> table[t].terms[w] !in table[t].terms)
  }

  /** Translating twice with a settled table is translating once. */
  lemma TranslateIdempotent(table: VocabTable, a: Attrs)
    requires Settled(table)
    ensures TranslateVocab(table, TranslateVocab(table, a)) == TranslateVocab(table, a)
  {
  }

  lemma StixVocabsSettled()
    ensures Settled(STIX_VOCABS)
  {
  }

  lemma CyboxVocabsSettled()
    ensures Settled(CYBOX_VOCABS)
  {
    assert CYBOX_VOCABS.Keys == {"EventTypeVocab-1.0"};
  }

  /** The STIX table touches only `AvailabilityLossTypeVocab-1.0` elements; they become
      `AvailabilityLossTypeVocab-1.1.1`, with `Degredation` corrected to `Degradation`. */
  lemma StixVocabTable(a: Attrs)
    ensures a.xsiType != Some("AvailabilityLossTypeVocab-1.0") ==> TranslateVocab(STIX_VOCABS, a) == a
    ensures a.xsiType == Some("AvailabilityLossTypeVocab-1.0") ==>
      TranslateVocab(STIX_VOCABS, a)
      == a.(xsiType := Some("AvailabilityLossTypeVocab-1.1.1"),
            text := if a.text == Some("Degredation") then Some("Degradation") else a.text)
  {
  }

  /** The CybOX tables touch only `EventTypeVocab-1.0` elements; they become
      `EventTypeVocab-1.0.1`, with `Anomoly Events` corrected to `Anomaly Events`. */
  lemma CyboxVocabTable(a: Attrs)
    ensures a.xsiType != Some("EventTypeVocab-1.0") ==> TranslateVocab(CYBOX_VOCABS, a) == a
    ensures a.xsiType == Some("EventTypeVocab-1.0") ==>
      TranslateVocab(CYBOX_VOCABS, a)
      == a.(xsiType := Some("EventTypeVocab-1.0.1"),
            text := if a.text == Some("Anomoly Events") then Some("Anomaly Events") else a.text)
  {
    assert CYBOX_VOCABS.Keys == {"EventTypeVocab-1.0"};
    assert CYBOX_VOCABS["EventTypeVocab-1.0"].terms == CYBOX_VOCAB_TERMS;
  }
}
