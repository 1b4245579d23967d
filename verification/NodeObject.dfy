/** A Kubernetes Node as the API server stores it, seen through its two metadata maps. */
module NodeObject {
  import opened Text
  import opened MergePatch

  function Member(v: Json, key: string): Json {
    if key in MembersOf(v) then MembersOf(v)[key] else Null
  }

  const LABELS := "labels"
  const ANNOTATIONS := "annotations"

  /** One section of a node's metadata: its labels or its annotations. */
  function Section(node: Json, name: string): map<string, Json> {
    MembersOf(Member(Member(node, "metadata"), name))
  }

  /** A patch body `{"metadata": {name: entries, ...}}`. */
  function MetadataPatch(sections: map<string, map<string, Json>>): Json {
    Object(map["metadata" := Object(map name | name in sections :: Object(sections[name]))])
  }

  /** Where the two sections stand in a Node, and in a patch body. */
  lemma MetadataShape(labels: map<string, Json>, annotations: map<string, Json>)
    ensures
      var node := Object(map["metadata" := Object(map["labels" := Object(labels), "annotations" := Object(annotations)])]);
      && Section(node, LABELS) == labels && Section(node, ANNOTATIONS) == annotations
      && MetadataPatch(map[LABELS := labels, ANNOTATIONS := annotations]) == node
    ensures MetadataPatch(map[ANNOTATIONS := annotations])
      == Object(map["metadata" := Object(map["annotations" := Object(annotations)])])
  {
    assert |LABELS| != |ANNOTATIONS|;
    var both := map[LABELS := labels, ANNOTATIONS := annotations];
    assert (map name | name in both :: Object(both[name]))
      == map["labels" := Object(labels), "annotations" := Object(annotations)];
    var one := map[ANNOTATIONS := annotations];
    assert (map name | name in one :: Object(one[name])) == map["annotations" := Object(annotations)];
  }

  /** Entries of a merge patch: strings to set, nulls to remove. */
  ghost predicate Flat(entries: map<string, Json>) {
    forall k | k in entries :: entries[k].Null? || entries[k].String?
  }

  /** A section after a patch of flat entries. */
  function Overlay(base: map<string, Json>, entries: map<string, Json>): map<string, Json> {
    map k | k in base.Keys + entries.Keys && !(k in entries && entries[k].Null?) ::
      if k in entries then entries[k] else base[k]
  }

  lemma MergeFlat(before: Json, entries: map<string, Json>)
    requires Flat(entries)
    ensures MembersOf(Merge(before, Object(entries))) == Overlay(MembersOf(before), entries)
  {
  }

  /** Patching a node overlays each named section and leaves the others alone. */
  lemma PatchSection(node: Json, sections: map<string, map<string, Json>>, name: string)
    requires forall s | s in sections :: Flat(sections[s])
    ensures Section(Merge(node, MetadataPatch(sections)), name)
      == if name in sections then Overlay(Section(node, name), sections[name]) else Section(node, name)
  {
    var patch := MetadataPatch(sections);
    var meta, metaPatch := Member(node, "metadata"), patch.members["metadata"];
    MergeMember(node, patch, "metadata");
    MergeMember(meta, metaPatch, name);
    if name in sections {
      MergeFlat(Member(meta, name), sections[name]);
    }
  }

  /** A section as the typed client reads it. */
  function Strings(section: map<string, Json>): map<string, string> {
    map k | k in section && section[k].String? :: section[k].s
  }

  /** Two sections agree on one key. */
  ghost predicate SameAt(a: map<string, Json>, b: map<string, Json>, k: string) {
    (k in a <==> k in b) && (k in a ==> a[k] == b[k])
  }
}
