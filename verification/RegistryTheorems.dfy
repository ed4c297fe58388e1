/** How resolution, publishing and the index agree. */
module RegistryTheorems {
  import opened Base
  import opened Registry

  lemma TheKinds()
    ensures DistinctKeys(KINDS) && forall k | k in KINDS :: !k.dataOnly
  {
    var first := seq(|KINDS|, i requires 0 <= i < |KINDS| =>
        (|KINDS[i].key|, KINDS[i].key[0]));
    assert first == [(9, 'w'), (6, 'a'), (12, 'c'), (3, 'm'), (6, 's'), (14, 'v'), (14, 'm'), (8, 'p'), (15, 'm'),
                     (17, 's'), (24, 'h'), (11, 'l')];
    forall i, j | 0 <= i < j < |KINDS| ensures KINDS[i].key != KINDS[j].key {
      assert first[i] != first[j];
    }
  }

  // --------------------------------------------------------------------- publish

  predicate SameName(a: Ref, b: Ref) {
    a.kind == b.kind && a.name == b.name
  }

  /** Publish, then resolve: the data-root copy comes back, carrying the published
      digest, whatever was on disk or in the index before; only a row that was
      already blocked stands in the way. */
  lemma PublishThenResolve(kinds: seq<Kind>, s: State, ref: Ref, content: Object)
    requires ByKey(kinds, ref.kind).Some? && IsWhole(content)
    ensures
      var s' := Publishing(kinds, s, ref, content, Survives);
      && Resolve(kinds, s'.roots, s'.index, ref)
         == (if ref in s.index && s.index[ref].trust == Blocked then IsBlocked else Found(FileAt(Data, ref), Data))
      && ref in s'.roots.data && s'.roots.data[ref] == content && s'.roots.config == s.roots.config
      && ref in s'.index && s'.index[ref].digest == Sha256(content)
      && (s'.index[ref].source == Data <==> ref !in s.index || s.index[ref].source == Data)
  {
    PublishPresence(s.roots.data, ref, content, ref.kind, ref.name);
  }

  /** Exactly when a publish goes through, and what it writes: the kind is known, a
      skill has its `SKILL.md`, and a persona it names resolves. The object is put
      under `data`; a row that was there keeps its source and trust, a new one is
      local and of `data`. A refused publish changes nothing. */
  lemma PublishExactly(kinds: seq<Kind>, s: State, ref: Ref, content: Object, needs: Option<Ref>)
    ensures
      var s' := Apply(kinds, s, Publish(ref, content, needs, Survives));
      if && (exists kind :: kind in kinds && kind.key == ref.kind)
         && (content.Folder? ==> "SKILL.md" in content.files)
         && (needs.Some? ==> Resolve(kinds, s.roots, s.index, needs.value).Found?)
      then
        && s'.roots == s.roots.(data := s.roots.data[ref := content])
        && ref in s'.index && s'.index == s.index[ref := s'.index[ref]]
        && s'.index[ref].digest == Sha256(content)
        && s'.index[ref].path == (if IsDirectory(kinds, ref.kind) then DirectoryAt(Data, ref) else FileAt(Data, ref))
        && s'.index[ref].source == (if ref in s.index then s.index[ref].source else Data)
        && s'.index[ref].trust == (if ref in s.index then s.index[ref].trust else Local)
      else s' == s
  {
    hide Resolve;
  }

  /** The frame: other names resolve as before; another version of the same name
      resolves as before if the name already had a version under `data`, and
      otherwise is no longer found, although it may still be there in `config`. */
  lemma PublishFrame(kinds: seq<Kind>, s: State, ref: Ref, content: Object, other: Ref)
    requires ByKey(kinds, ref.kind).Some? && IsWhole(content) && other != ref
    ensures
      var s' := Publishing(kinds, s, ref, content, Survives);
      Resolve(kinds, s'.roots, s'.index, other)
      == if !SameName(ref, other) || Present(s.roots.data, ref.kind, ref.name)
          then Resolve(kinds, s.roots, s.index, other)
         else NotFound
  {
    PublishPresence(s.roots.data, ref, content, other.kind, other.name);
  }

  /** The reference resolves, to exactly this object in the data root. */
  predicate Serves(kinds: seq<Kind>, s: State, ref: Ref, content: Object) {
    && Resolve(kinds, s.roots, s.index, ref) == Found(FileAt(Data, ref), Data)
    && ref in s.roots.data && s.roots.data[ref] == content
  }

  /** No row, or a row that lets this object through. */
  predicate RowFits(index: Index, ref: Ref, content: Object) {
    ref in index ==> index[ref].trust != Blocked && index[ref].digest == Sha256(content)
  }

  /** A publish that dies before its row is committed still serves the new object
      exactly when the whole object was on disk, put there now or before, and the
      old row fits it. */
  lemma InterruptedPublish(kinds: seq<Kind>, s: State, ref: Ref, content: Object, dies: Death)
    requires ByKey(kinds, ref.kind).Some? && IsWhole(content) && dies != Survives
    ensures
      var s' := Publishing(kinds, s, ref, content, dies);
      Serves(kinds, s', ref, content)
      <==> && RowFits(s.index, ref, content)
           && if dies.Written? then dies.partial == content
              else !IsDirectory(kinds, ref.kind) && ref in s.roots.data && s.roots.data[ref] == content
  {
    if dies.Written? { PublishPresence(s.roots.data, ref, dies.partial, ref.kind, ref.name); }
  }

  /** A version that is not in the data root is found only in `config`, and there
      exactly when no other version keeps the name in the data root and the row, if
      there is one, lets the object in `config` through. */
  predicate FoundInConfig(kinds: seq<Kind>, s: State, ref: Ref) {
    && !Present(s.roots.data - {ref}, ref.kind, ref.name) && Indexable(kinds, s.roots.config, Config, ref)
    && RowFits(s.index, ref, s.roots.config[ref])
  }

  lemma MissingResolves(kinds: seq<Kind>, s: State, ref: Ref)
    requires !Listed(s.roots.data, ref)
    ensures
      var r := Resolve(kinds, s.roots, s.index, ref);
      (r.Found? <==> FoundInConfig(kinds, s, ref)) && (r.Found? ==> r == Found(FileAt(Config, ref), Config))
  {
    if ref in s.roots.data {
      PublishPresence(s.roots.data, ref, s.roots.data[ref], ref.kind, ref.name);
    } else {
      assert s.roots.data - {ref} == s.roots.data;
    }
  }

  /** A half-written object is served from the data root exactly if it already
      counts as a version, for a skill with its `SKILL.md`, and the old row fits what
      was written so far. A copy that stopped before `SKILL.md` is as good as absent,
      and the reference may fall through to `config`. */
  lemma PartlyWritten(kinds: seq<Kind>, s: State, ref: Ref, content: Object, partial: Object)
    requires ByKey(kinds, ref.kind).Some?
    ensures
      var s' := Publishing(kinds, s, ref, content, Written(partial));
      var r := Resolve(kinds, s'.roots, s'.index, ref);
      && (r == Found(FileAt(Data, ref), Data) <==> IsWhole(partial) && RowFits(s.index, ref, partial))
      && (r == Found(FileAt(Config, ref), Config) <==> !IsWhole(partial) && FoundInConfig(kinds, s, ref))
      && (IsWhole(partial) ==>
            (r == DigestMismatch
             <==> ref in s.index && s.index[ref].trust != Blocked && s.index[ref].digest != Sha256(partial)))
  {
    var s' := Publishing(kinds, s, ref, content, Written(partial));
    PublishPresence(s.roots.data, ref, partial, ref.kind, ref.name);
    assert s'.roots.data - {ref} == s.roots.data - {ref};
    if !IsWhole(partial) { MissingResolves(kinds, s', ref); }
  }

  /** A directory that was removed and not yet copied is missing, whatever its row
      says, and may fall through to `config` in the same way. */
  lemma RemovedDirectory(kinds: seq<Kind>, s: State, ref: Ref, content: Object)
    requires IsDirectory(kinds, ref.kind)
    ensures
      var s' := Publishing(kinds, s, ref, content, Removed);
      var r := Resolve(kinds, s'.roots, s'.index, ref);
      (r.Found? <==> FoundInConfig(kinds, s, ref)) && (r.Found? ==> r == Found(FileAt(Config, ref), Config))
  {
    var s' := Publishing(kinds, s, ref, content, Removed);
    assert s'.roots.data - {ref} == s.roots.data - {ref};
    MissingResolves(kinds, s', ref);
  }

  // --------------------------------------------------------------------- reindex

  /** After a reindex the index agrees with the overlay: whatever the lookup finds
      has a row with that object's digest, place and source, so it resolves unless
      it is blocked; the trust of a row that was there is untouched. */
  lemma IndexAgreesWithOverlay(kinds: seq<Kind>, s: State, ref: Ref)
    ensures
      var index := Apply(kinds, s, Reindex).index;
      var found := Lookup(kinds, s.roots, ref);
      found.Found? ==>
        && ref in index && index[ref].source == found.source && index[ref].path == found.location
        && index[ref].digest == Sha256(ObjectAt(s.roots, found.source, ref))
        && Resolve(kinds, s.roots, index, ref) == if index[ref].trust == Blocked then IsBlocked else found
    ensures ref in s.index ==>
              ref in Apply(kinds, s, Reindex).index && Apply(kinds, s, Reindex).index[ref].trust == s.index[ref].trust
  {
  }

  /** A second reindex changes nothing. */
  lemma ReindexIsIdempotent(kinds: seq<Kind>, s: State)
    ensures Apply(kinds, Apply(kinds, s, Reindex), Reindex) == Apply(kinds, s, Reindex)
  {
    var once := Reindexed(kinds, s.roots, s.index);
    forall ref ensures RowOf(Reindexed(kinds, s.roots, once), ref) == RowOf(once, ref) {
      assert RowOf(once, ref) == ReindexedRow(kinds, s.roots, s.index, ref);
    }
    SameIndex(Reindexed(kinds, s.roots, once), once);
  }

  /** The trust a first reindex gives: "local" for what is only under `data`, but
      "trusted" for what is under both, although its row then names `data`. */
  lemma FirstTrust(kinds: seq<Kind>, s: State, ref: Ref)
    requires ref !in s.index && ref in Apply(kinds, s, Reindex).index
    ensures
      var row := Apply(kinds, s, Reindex).index[ref];
      && (row.trust == Trusted <==> Indexable(kinds, s.roots.config, Config, ref))
      && (row.trust == Local <==> !Indexable(kinds, s.roots.config, Config, ref))
      && (row.source == Data <==> Listed(s.roots.data, ref))
  {
  }

  // ------------------------------------------------------------------- histories

  /** The last decision about `ref` in a history, if there was one. */
  function LastDecision(ref: Ref, was: Trust, ops: seq<Op>): Trust
    decreases |ops|
  {
    if ops == [] then was
    else LastDecision(ref, if ops[0].SetTrust? && ops[0].ref == ref then ops[0].trust else was, ops[1..])
  }

  /** A trust decision changes the trust of one row and nothing else. */
  lemma TrustExactly(kinds: seq<Kind>, s: State, ref: Ref, trust: Trust)
    ensures
      var s' := Apply(kinds, s, SetTrust(ref, trust));
      && s'.roots == s.roots && s'.index.Keys == s.index.Keys
      && (forall r | r in s.index && r != ref :: s'.index[r] == s.index[r])
      && (ref in s.index ==>
            && s'.index[ref].trust == trust && s'.index[ref].digest == s.index[ref].digest
            && s'.index[ref].source == s.index[ref].source && s'.index[ref].path == s.index[ref].path)
  {
  }

  /** Once a reference is indexed its row stays, and its trust is whatever the
      operator last decided, over every history of publishes, reindexes, crashes
      and edits of the files. */
  lemma {:induction false} OnlyOperatorsChangeTrust(kinds: seq<Kind>, s: State, ops: seq<Op>, ref: Ref)
    requires ref in s.index
    ensures
      var s' := Run(kinds, s, ops);
      ref in s'.index && s'.index[ref].trust == LastDecision(ref, s.index[ref].trust, ops)
    decreases |ops|
  {
    hide ByKey;
    if ops != [] {
      OnlyOperatorsChangeTrust(kinds, Apply(kinds, s, ops[0]), ops[1..], ref);
    }
  }

  /** A blocked reference never resolves again, in any history in which no operator
      decides about it. */
  lemma BlockedStaysBlocked(kinds: seq<Kind>, s: State, ops: seq<Op>, ref: Ref)
    requires ref in s.index && s.index[ref].trust == Blocked
    requires LastDecision(ref, Blocked, ops) == Blocked
    ensures
      var s' := Run(kinds, s, ops);
      Resolve(kinds, s'.roots, s'.index, ref)
      == if Lookup(kinds, s'.roots, ref).Found? then IsBlocked else Lookup(kinds, s'.roots, ref)
  {
    OnlyOperatorsChangeTrust(kinds, s, ops, ref);
  }

  /** The row's source may be stale after a publish, never after a reindex: then a
      row names `data` exactly when the object is there. */
  lemma PublishThenReindexNamesData(kinds: seq<Kind>, s: State, ref: Ref, content: Object)
    requires ByKey(kinds, ref.kind).Some? && IsWhole(content)
    ensures
      var s' := Apply(kinds, Publishing(kinds, s, ref, content, Survives), Reindex);
      && ref in s'.index && s'.index[ref].source == Data && s'.index[ref].path == FileAt(Data, ref)
      && s'.index[ref].digest == Sha256(content)
      && s'.index[ref].trust == (if ref in s.index then s.index[ref].trust else Local)
  {
  }
}
