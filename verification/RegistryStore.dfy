/** The roots and the index as the registry's operations change them. */
module RegistryStore {
  import opened Base
  import opened Registry
  import opened RegistryTheorems

  class Catalog {
    const kinds: seq<Kind>
    var roots: Roots
    var index: Index

    constructor (kinds: seq<Kind>, roots: Roots)
      ensures this.kinds == kinds && this.roots == roots && index == map[]
    {
      this.kinds, this.roots, index := kinds, roots, map[];
    }

    function Value(): State
      reads this
    {
      State(roots, index)
    }

    /** `op_registry_publish`, once the object has parsed as `ref`. */
    method PublishObject(ref: Ref, content: Object, needs: Option<Ref>, dies: Death) returns (ok: bool)
      modifies this
      ensures ok == Accepts(kinds, old(Value()), ref, content, needs)
      ensures Value() == Apply(kinds, old(Value()), Publish(ref, content, needs, dies))
      ensures ok && dies == Survives && (ref in old(index) ==> old(index)[ref].trust != Blocked) ==>
                Resolve(kinds, roots, index, ref) == Found(FileAt(Data, ref), Data) && roots.data[ref] == content
    {
      if ByKey(kinds, ref.kind).Some? && IsWhole(content) { PublishThenResolve(kinds, Value(), ref, content); }
      hide Present, Lookup;
      if ByKey(kinds, ref.kind).None? || !IsWhole(content) {
        return false;
      }
      if needs.Some? && !Resolve(kinds, roots, index, needs.value).Found? {
        return false;
      }
      if IsDirectory(kinds, ref.kind) && !dies.Written? {
        roots := roots.(data := roots.data - {ref});
      }
      if dies == Removed {
        return true;
      }
      if dies.Written? {
        roots := roots.(data := roots.data[ref := dies.partial]);
        return true;
      }
      assert (roots.data - {ref})[ref := content] == roots.data[ref := content];
      roots := roots.(data := roots.data[ref := content]);
      var path := if IsDirectory(kinds, ref.kind) then DirectoryAt(Data, ref) else FileAt(Data, ref);
      if ref in index {
        index := index[ref := index[ref].(digest := Sha256(content), path := path)];
      } else {
        index := index[ref := Row(Sha256(content), Data, path, Local)];
      }
      return true;
    }

    /** `op_registry_trust`; false when the row is missing. */
    method TrustObject(ref: Ref, trust: Trust) returns (ok: bool)
      modifies this`index
      ensures ok == (ByKey(kinds, ref.kind).Some? && ref in old(index))
      ensures Value() == if ok then Apply(kinds, old(Value()), SetTrust(ref, trust)) else old(Value())
      ensures ok && trust == Blocked ==> !Resolve(kinds, roots, index, ref).Found?
    {
      if ByKey(kinds, ref.kind).None? || ref !in index {
        return false;
      }
      index := index[ref := index[ref].(trust := trust)];
      return true;
    }

    /** One root's pass over one kind; the order of the listing does not matter. */
    method IndexKind(kind: Kind, source: Source)
      modifies this`index
      ensures
        var root := if source == Data then roots.data else roots.config;
        forall ref :: RowOf(index, ref) == PassRow(old(index), kind.key, root, source, ref)
    {
      var root := if source == Data then roots.data else roots.config;
      var todo := set ref | ref in root && Listed(root, ref) && ref.kind == kind.key;
      while todo != {}
        invariant todo <= root.Keys && forall ref | ref in todo :: Listed(root, ref) && ref.kind == kind.key
        invariant forall ref :: RowOf(index, ref)
                    == if ref in todo then RowOf(old(index), ref) else PassRow(old(index), kind.key, root, source, ref)
        decreases |todo|
      {
        var ref :| ref in todo;
        todo := todo - {ref};
        assert RowOf(index, ref) == RowOf(old(index), ref);
        index := Upsert(index, ref, Sha256(root[ref]), source);
      }
    }

    /** `reindex`: for each kind, config first and then data. */
    method ReindexAll()
      requires DistinctKeys(kinds)
      modifies this`index
      ensures Value() == Apply(kinds, old(Value()), Reindex)
    {
      for i := 0 to |kinds|
        invariant forall ref :: RowOf(index, ref) == ReindexedRow(kinds[..i], roots, old(index), ref)
      {
        ghost var before := index;
        if !kinds[i].dataOnly {
          IndexKind(kinds[i], Config);
        }
        ghost var between := index;
        IndexKind(kinds[i], Data);
        forall ref ensures RowOf(index, ref) == ReindexedRow(kinds[..i + 1], roots, old(index), ref) {
          KindPasses(kinds, i, roots, old(index), before, between, index, ref);
        }
      }
      assert kinds[..|kinds|] == kinds;
      SameIndex(index, Reindexed(kinds, roots, old(index)));
    }
  }
}
