/** Representative entries of the two updaters' namespace tables (`NSMAP`, prefix to
    namespace URI) and schema-location tables (`UPDATE_SCHEMALOC_MAP`, namespace URI to
    the schema location of the target version). */
module Namespaces {
  const STIX_NSMAP: map<string, string> := map[
    "stix" := "http://stix.mitre.org/stix-1",
    "indicator" := "http://stix.mitre.org/Indicator-2",
    "stixCommon" := "http://stix.mitre.org/common-1",
    "stix-ciqaddress" := "http://stix.mitre.org/extensions/Address#CIQAddress3.0-1",
    "stix-stix-ciq" := "http://stix.mitre.org/extensions/Identity#stix-ciq3.0-1"]

  const STIX_SCHEMALOCS: map<string, string> := map[
    "http://stix.mitre.org/stix-1" := "http://stix.mitre.org/XMLSchema/core/1.1.1/stix_core.xsd",
    "http://stix.mitre.org/Indicator-2" := "http://stix.mitre.org/XMLSchema/indicator/2.1.1/indicator.xsd",
    "http://stix.mitre.org/common-1" := "http://stix.mitre.org/XMLSchema/common/1.1.1/stix_common.xsd",
    "http://stix.mitre.org/extensions/Address#CIQAddress3.0-1" :=
      "http://stix.mitre.org/XMLSchema/extensions/address/ciq_3.0/1.1.1/ciq_3.0_address.xsd",
    "http://stix.mitre.org/extensions/Identity#CIQIdentity3.0-1" :=
      "http://stix.mitre.org/XMLSchema/extensions/identity/ciq_3.0/1.1.1/ciq_3.0_identity.xsd"]

  const CYBOX_NSMAP: map<string, string> := map[
    "cybox" := "http://cybox.mitre.org/cybox-2",
    "cyboxCommon" := "http://cybox.mitre.org/common-2",
    "cyboxVocabs" := "http://cybox.mitre.org/default_vocabularies-2",
    "FileObj" := "http://cybox.mitre.org/objects#FileObject-2"]

  const CYBOX_SCHEMALOCS: map<string, string> := map[
    "http://cybox.mitre.org/cybox-2" := "http://cybox.mitre.org/XMLSchema/core/2.0.1/cybox_core.xsd",
    "http://cybox.mitre.org/common-2" := "http://cybox.mitre.org/XMLSchema/common/2.0.1/cybox_common.xsd",
    "http://cybox.mitre.org/default_vocabularies-2" :=
      "http://cybox.mitre.org/XMLSchema/default_vocabularies/2.0.1/cybox_default_vocabularies.xsd",
    "http://cybox.mitre.org/objects#FileObject-2" :=
      "http://cybox.mitre.org/XMLSchema/objects/File/2.0.1/File_Object.xsd"]

  /** The prefixes whose namespace has no schema location in `locs`. */
  function Unlocated(nsmap: map<string, string>, locs: map<string, string>): (r: set<string>)
    ensures forall p :: p in r <==> p in nsmap && nsmap[p] !in locs
  {
    set p | p in nsmap && nsmap[p] !in locs
  }

  /** Among the STIX entries, the `stix-stix-ciq` namespace is the one without a schema
      location: the table keys the identity extension as `CIQIdentity3.0-1`. */
  lemma StixCiqIdentityUnlocated()
    ensures Unlocated(STIX_NSMAP, STIX_SCHEMALOCS) == {"stix-stix-ciq"}
  {
    assert "stix-stix-ciq" in Unlocated(STIX_NSMAP, STIX_SCHEMALOCS);
  }

  /** Every CybOX entry has a schema location. */
  lemma CyboxEntriesLocated()
    ensures Unlocated(CYBOX_NSMAP, CYBOX_SCHEMALOCS) == {}
  {
  }
}
