/**
  Loading the package manifest `/packages.yml`. Reading the filesystem and
  parsing YAML are outside the model: the loader receives what they found,
  a `Manifest`, and decides the two package lists from it.
 */
module Config {

  datatype Option<T> = None | Some(value: T)

  /**
    A parsed YAML value, as far as the loader looks at it. A sequence's
    entries are taken to be strings: the loader never inspects them.
    `Scalar` stands for every other value (string, number, boolean, ...).
   */
  datatype Node =
    | Null
    | Scalar(text: string)
    | Sequence(items: seq<string>)
    | Mapping(entries: map<string, Node>)

  /** What the filesystem and the YAML parser report about the manifest path. */
  datatype Manifest =
    | Missing            // nothing exists at the path
    | Directory          // the path is a directory (an unpopulated bind mount)
    | Unreadable         // opening or reading the file failed
    | Malformed          // the YAML parser rejected the text
    | Parsed(doc: Node)  // the document the parser produced

  /** The loader's pair `(dnf_packages, python_packages)`; `None` is Python's `None`. */
  datatype Loaded = Loaded(dnf: Option<seq<string>>, pip: Option<seq<string>>)

  const ManifestPath: string := "/packages.yml"
  const DnfKey: string := "dnf_packages"
  const PipKey: string := "python_packages"

  /** `config.get(key, [])`. */
  function Field(entries: map<string, Node>, key: string): Node
  {
    if key in entries then entries[key] else Sequence([])
  }

  /**
    The manifest's document, if it can serve as a configuration: a mapping
    whose two package keys, when present, hold lists. A null document counts
    as the empty mapping.
   */
  predicate Usable(m: Manifest)
  {
    && m.Parsed?
    && (m.doc.Null? || (m.doc.Mapping? && Field(m.doc.entries, DnfKey).Sequence?
                                       && Field(m.doc.entries, PipKey).Sequence?))
  }

  /** `load_packages_config`. */
  function Load(m: Manifest): (r: Loaded)
    // both lists are loaded or neither is
    ensures r.dnf.Some? <==> r.pip.Some?
    ensures r.dnf.Some? <==> Usable(m)
    // no file, a directory, a read or a parse error: nothing is loaded
    ensures !m.Parsed? ==> r == Loaded(None, None)
    // an empty document loads two empty lists
    ensures m == Parsed(Null) ==> r == Loaded(Some([]), Some([]))
    // a document that is neither null nor a mapping loads nothing
    ensures m.Parsed? && !m.doc.Null? && !m.doc.Mapping? ==> r == Loaded(None, None)
    // a value that is not a list under either key spoils both
    ensures m.Parsed? && m.doc.Mapping? && DnfKey in m.doc.entries && !m.doc.entries[DnfKey].Sequence? ==>
              r == Loaded(None, None)
    ensures m.Parsed? && m.doc.Mapping? && PipKey in m.doc.entries && !m.doc.entries[PipKey].Sequence? ==>
              r == Loaded(None, None)
    // a loaded list is the document's list, or empty when its key is absent
    ensures r.dnf.Some? && m.doc.Mapping? && DnfKey in m.doc.entries ==> r.dnf.value == m.doc.entries[DnfKey].items
    ensures r.pip.Some? && m.doc.Mapping? && PipKey in m.doc.entries ==> r.pip.value == m.doc.entries[PipKey].items
    ensures r.dnf.Some? && (m.doc.Null? || DnfKey !in m.doc.entries) ==> r.dnf.value == []
    ensures r.pip.Some? && (m.doc.Null? || PipKey !in m.doc.entries) ==> r.pip.value == []
  {
    match m
    case Missing => Loaded(None, None)
    case Directory => Loaded(None, None)
    case Unreadable => Loaded(None, None)
    case Malformed => Loaded(None, None)
    case Parsed(doc) =>
      var config := if doc.Null? then Mapping(map[]) else doc;
      if !config.Mapping? then
        // `config.get` raises on a non-mapping; the loader's catch-all handler turns that into nothing
        Loaded(None, None)
      else
        var dnf := Field(config.entries, DnfKey);
        var pip := Field(config.entries, PipKey);
        if !dnf.Sequence? then Loaded(None, None)
        else if !pip.Sequence? then Loaded(None, None)
        else Loaded(Some(dnf.items), Some(pip.items))
  }

  /** The manifest written for two lists loads exactly those lists back. */
  function ManifestOf(dnf: seq<string>, pip: seq<string>): Manifest
  {
    Parsed(Mapping(map[DnfKey := Sequence(dnf), PipKey := Sequence(pip)]))
  }

  lemma LoadManifestOf(dnf: seq<string>, pip: seq<string>)
    ensures Load(ManifestOf(dnf, pip)) == Loaded(Some(dnf), Some(pip))
  {
  }
}
