/** The registry over its two roots, and the index kept beside it
    (`registry/kinds.py`, `registry/resolve.py`, `registry/index.py`,
    `ops/registry.py`). */
module Registry {
  import opened Base

  // ----------------------------------------------------------------------- kinds

  datatype Layout = Yaml | Markdown | Directory
  datatype Kind = Kind(key: string, layout: Layout, dataOnly: bool)

  const KINDS: seq<Kind> := [
    Kind("workflows", Yaml, false), Kind("agents", Markdown, false), Kind("capabilities", Yaml, false),
    Kind("mcp", Yaml, false), Kind("skills", Directory, false), Kind("voice-profiles", Yaml, false),
    Kind("model-profiles", Yaml, false), Kind("personas", Yaml, false), Kind("memory-profiles", Yaml, false),
    Kind("semantic-memories", Yaml, false), Kind("hardware-voice-manifests", Yaml, false),
    Kind("llm-servers", Yaml, false)]

  /** `by_key`. */
  function ByKey(kinds: seq<Kind>, key: string): (found: Option<Kind>)
    ensures found.Some? ==> found.value in kinds && found.value.key == key
    ensures found.None? ==> forall k | k in kinds :: k.key != key
  {
    if kinds == [] then None
    else if kinds[|kinds| - 1].key == key then Some(kinds[|kinds| - 1])
    else ByKey(kinds[..|kinds| - 1], key)
  }

  // ----------------------------------------------------------------------- roots

  datatype Ref = Ref(kind: string, name: string, version: string)

  /** A file's bytes, or a skill directory's files by relative path. */
  datatype Object = File(bytes: string) | Folder(files: map<string, string>)

  datatype Source = Config | Data
  type Root = map<Ref, Object>
  datatype Roots = Roots(config: Root, data: Root)

  /** `object_path` names the file (`SKILL.md` for a skill); publishing a skill
      records its directory instead. */
  datatype Location = FileAt(root: Source, ref: Ref) | DirectoryAt(root: Source, ref: Ref)

  datatype Trust = Local | Trusted | Quarantined | Blocked
  datatype Row = Row(digest: Digest<Object>, source: Source, path: Location, trust: Trust)
  type Index = map<Ref, Row>

  const SKILL_FILE := "SKILL.md"

  /** A directory counts as a version only with its `SKILL.md` in it. */
  predicate IsWhole(content: Object) {
    content.Folder? ==> SKILL_FILE in content.files
  }

  /** `version_names` lists the version, and `object_path` exists. */
  predicate Listed(root: Root, ref: Ref) {
    ref in root && IsWhole(root[ref])
  }

  predicate Present(root: Root, kind: string, name: string) {
    exists ref | ref in root :: Listed(root, ref) && ref.kind == kind && ref.name == name
  }

  // ------------------------------------------------------------------ resolution

  datatype Resolution =
    | Found(location: Location, source: Source)
    | NotFound
    | IsBlocked
    | DigestMismatch
    | UnknownKind

  /** Where the two-root lookup finds a reference, before the index is consulted:
      a name with any version under `data` is never looked up under `config`. */
  function Lookup(kinds: seq<Kind>, roots: Roots, ref: Ref): Resolution {
    var kind := ByKey(kinds, ref.kind);
    if kind.None? then UnknownKind
    else if Present(roots.data, ref.kind, ref.name) then
      if Listed(roots.data, ref) then Found(FileAt(Data, ref), Data) else NotFound
    else if kind.value.dataOnly then NotFound
    else if Listed(roots.config, ref) then Found(FileAt(Config, ref), Config)
    else NotFound
  }

  function ObjectAt(roots: Roots, source: Source, ref: Ref): Object
    requires ref in (if source == Data then roots.data else roots.config)
  {
    if source == Data then roots.data[ref] else roots.config[ref]
  }

  /** `resolve_registry_object`, with `_verify`. */
  function Resolve(kinds: seq<Kind>, roots: Roots, index: Index, ref: Ref): Resolution {
    var found := Lookup(kinds, roots, ref);
    if !found.Found? || ref !in index then found
    else if index[ref].trust == Blocked then IsBlocked
    else if Sha256(ObjectAt(roots, found.source, ref)) != index[ref].digest then DigestMismatch
    else found
  }

  // -------------------------------------------------------------------- changing

  function DefaultTrust(source: Source): Trust {
    if source == Config then Trusted else Local
  }

  /** `_upsert`: an existing row keeps its trust status. */
  function Upsert(index: Index, ref: Ref, digest: Digest<Object>, source: Source): Index {
    index[ref := Row(digest, source, FileAt(source, ref), if ref in index then index[ref].trust
        else DefaultTrust(source))]
  }

  predicate IsDirectory(kinds: seq<Kind>, key: string) {
    var kind := ByKey(kinds, key);
    kind.Some? && kind.value.layout == Directory
  }

  /** The row `op_registry_publish` leaves: on conflict the source stays. */
  function PublishedRow(kinds: seq<Kind>, index: Index, ref: Ref, content: Object): Row {
    var path := if IsDirectory(kinds, ref.kind) then DirectoryAt(Data, ref) else FileAt(Data, ref);
    if ref in index then index[ref].(digest := Sha256(content), path := path)
    else Row(Sha256(content), Data, path, Local)
  }

  function RowOf(index: Index, ref: Ref): Option<Row> {
    if ref in index then Some(index[ref]) else None
  }

  /** One root's objects of one kind, upserted. */
  function PassRow(index: Index, kind: string, root: Root, source: Source, ref: Ref): Option<Row> {
    if Listed(root, ref) && ref.kind == kind then Some(Upsert(index, ref, Sha256(root[ref]), source)[ref])
    else RowOf(index, ref)
  }

  predicate Indexable(kinds: seq<Kind>, root: Root, source: Source, ref: Ref) {
    && Listed(root, ref) && ByKey(kinds, ref.kind).Some?
    && (source == Data || !ByKey(kinds, ref.kind).value.dataOnly)
  }

  /** The row `reindex` leaves for a reference, if it leaves or finds one. Data is
      indexed last; a row inserted by the config pass keeps that pass's trust. */
  function ReindexedRow(kinds: seq<Kind>, roots: Roots, index: Index, ref: Ref): Option<Row> {
    var inConfig := Indexable(kinds, roots.config, Config, ref);
    var trust := if ref in index then index[ref].trust else DefaultTrust(if inConfig then Config else Data);
    if Indexable(kinds, roots.data, Data, ref) then Some(Row(Sha256(roots.data[ref]), Data, FileAt(Data, ref), trust))
    else if inConfig then Some(Row(Sha256(roots.config[ref]), Config, FileAt(Config, ref), trust))
    else if ref in index then Some(index[ref])
    else None
  }

  function Reindexed(kinds: seq<Kind>, roots: Roots, index: Index): Index {
    map ref | ref in roots.config.Keys + roots.data.Keys + index.Keys && ReindexedRow(kinds, roots, index, ref).Some? ::
      ReindexedRow(kinds, roots, index, ref).value
  }

  // ------------------------------------------------------------------- histories

  datatype State = State(roots: Roots, index: Index)

  /** Where a publish may die: for a directory kind, once the old directory is
      gone; or with the object on disk, whole or in part, but no row committed. */
  datatype Death = Survives | Removed | Written(partial: Object)

  /** `needs` is the persona of a voice profile, which has to resolve. A skill
      without its `SKILL.md` is refused. */
  datatype Op =
    | Publish(ref: Ref, content: Object, needs: Option<Ref>, dies: Death)
    | Reindex
    | SetTrust(ref: Ref, trust: Trust)
    | Edit(roots: Roots)

  predicate Accepts(kinds: seq<Kind>, s: State, ref: Ref, content: Object, needs: Option<Ref>) {
    ByKey(kinds, ref.kind).Some? && IsWhole(content)
    && (needs.Some? ==> Resolve(kinds, s.roots, s.index, needs.value).Found?)
  }

  function Publishing(kinds: seq<Kind>, s: State, ref: Ref, content: Object, dies: Death): State {
    match dies
    case Removed =>
      if IsDirectory(kinds, ref.kind) then s.(roots := s.roots.(data := s.roots.data - {ref})) else s
    case Written(partial) => s.(roots := s.roots.(data := s.roots.data[ref := partial]))
    case Survives =>
      State(s.roots.(data := s.roots.data[ref := content]), s.index[ref := PublishedRow(kinds, s.index, ref, content)])
  }

  function Apply(kinds: seq<Kind>, s: State, op: Op): State {
    match op
    case Publish(ref, content, needs, dies) =>
      if Accepts(kinds, s, ref, content, needs) then Publishing(kinds, s, ref, content, dies) else s
    case Reindex => s.(index := Reindexed(kinds, s.roots, s.index))
    case SetTrust(ref, trust) => if ref in s.index then s.(index := s.index[ref := s.index[ref].(trust := trust)])
        else s
    case Edit(roots) => s.(roots := roots)
  }

  function Run(kinds: seq<Kind>, s: State, ops: seq<Op>): State
    decreases |ops|
  {
    if ops == [] then s else Run(kinds, Apply(kinds, s, ops[0]), ops[1..])
  }

  lemma PublishPresence(data: Root, ref: Ref, content: Object, kind: string, name: string)
    ensures Present(data[ref := content], kind, name)
            <==> Present(data - {ref}, kind, name) || (IsWhole(content) && ref.kind == kind && ref.name == name)
    ensures ref.kind != kind || ref.name != name || !Listed(data, ref) ==>
              (Present(data - {ref}, kind, name) <==> Present(data, kind, name))
  {
    var more, less := data[ref := content], data - {ref};
    if Present(data, kind, name) {
      var r :| r in data && Listed(data, r) && r.kind == kind && r.name == name;
      assert r != ref ==> Listed(less, r) && Listed(more, r);
    }
    if Present(less, kind, name) {
      var r :| r in less && Listed(less, r) && r.kind == kind && r.name == name;
      assert Listed(data, r) && Listed(more, r);
    }
    if Present(more, kind, name) {
      var r :| r in more && Listed(more, r) && r.kind == kind && r.name == name;
      assert r != ref ==> Listed(less, r);
    }
    assert IsWhole(content) ==> Listed(more, ref);
  }

  predicate DistinctKeys(kinds: seq<Kind>) {
    forall i, j | 0 <= i < j < |kinds| :: kinds[i].key != kinds[j].key
  }

  lemma SameIndex(a: Index, b: Index)
    requires forall ref :: RowOf(a, ref) == RowOf(b, ref)
    ensures a == b
  {
    forall ref ensures (ref in a <==> ref in b) && (ref in a ==> a[ref] == b[ref]) {
      assert RowOf(a, ref) == RowOf(b, ref);
    }
    assert a.Keys == b.Keys;
  }

  lemma OneMoreKind(kinds: seq<Kind>, i: nat, key: string)
    requires i < |kinds| && DistinctKeys(kinds)
    ensures ByKey(kinds[..i + 1], key) == if key == kinds[i].key then Some(kinds[i]) else ByKey(kinds[..i], key)
    ensures ByKey(kinds[..i], kinds[i].key).None?
  {
  }

  lemma KindPasses(
    kinds: seq<Kind>, i: nat, roots: Roots, start: Index, before: Index, between: Index, after: Index, ref: Ref)
    requires i < |kinds| && DistinctKeys(kinds)
    requires RowOf(before, ref) == ReindexedRow(kinds[..i], roots, start, ref)
    requires RowOf(between, ref)
             == if kinds[i].dataOnly then RowOf(before, ref)
                 else PassRow(before, kinds[i].key, roots.config, Config, ref)
    requires RowOf(after, ref) == PassRow(between, kinds[i].key, roots.data, Data, ref)
    ensures RowOf(after, ref) == ReindexedRow(kinds[..i + 1], roots, start, ref)
  {
    OneMoreKind(kinds, i, ref.kind);
    hide ByKey;
  }
}
