/** SoyCacheUpdater: the eligibility gate, the update and remove protocol
    over the per-module caches, disposal, and the last-update stamp. */
module Updater {
  import opened Wrappers
  import opened Caches
  import Directives

  /** A workspace module, by identity. */
  type ModuleId = nat

  /** The extension registered for template files. */
  const SOY_EXTENSION: string := "soy"

  /** Files this long or longer are never parsed. */
  const MAX_FILE_LENGTH: nat := 1000000

  /** What the host reports about a file: isValid(), getLength() and
      getExtension(), the last being null for a file without one. */
  datatype FileInfo = FileInfo(isValid: bool, length: nat, extension: Option<string>)

  /** isCacheableSoyFile: valid, shorter than the limit, and a template file. */
  predicate IsCacheableSoyFile(info: FileInfo) {
    info.isValid && info.length < MAX_FILE_LENGTH && info.extension == Some(SOY_EXTENSION)
  }

  /** An invalid file, a file of the size limit or more, and a file without
      the template extension are never cached; a valid template file under
      the limit always is. The limit is strict: one byte under it is cached. */
  lemma CacheableLengthBoundary(isValid: bool, length: nat, extension: Option<string>)
    ensures !isValid ==> !IsCacheableSoyFile(FileInfo(isValid, length, extension))
    ensures length >= MAX_FILE_LENGTH ==> !IsCacheableSoyFile(FileInfo(isValid, length, extension))
    ensures extension != Some("soy") ==> !IsCacheableSoyFile(FileInfo(isValid, length, extension))
    ensures isValid && length < MAX_FILE_LENGTH && extension == Some("soy") ==> IsCacheableSoyFile(FileInfo(isValid, length, extension))
    ensures IsCacheableSoyFile(FileInfo(true, 999999, Some("soy")))
    ensures !IsCacheableSoyFile(FileInfo(true, 1000000, Some("soy")))
  {
  }

  /** The cache of a module, created empty on first access. */
  function CacheOf(caches: map<ModuleId, Cache>, m: ModuleId): Cache {
    if m in caches then caches[m] else map[]
  }

  /** The add phase for one kind of cache, as updateCacheImpl performs it:
      getOrCreate the owner's bucket, addFile, then one entry per template in
      a loop. */
  method AddToCache(kind: CacheKind, s: CacheState, owner: string, names: seq<string>, file: FileId)
    returns (r: CacheState)
    ensures r == AddPhase(kind, s, owner, names, file)
  {
    var bucket: Bucket;
    var nextId := s.nextId;
    if owner in s.cache {
      bucket := s.cache[owner];
    } else {
      bucket := Bucket(nextId, owner, {}, map[]);
      nextId := nextId + 1;
    }
    ghost var created := bucket;
    bucket := bucket.(files := bucket.files + {file});
    var links := s.links[file := BucketRef(owner, bucket.id)];
    var i := 0;
    while i < |names|
      invariant 0 <= i <= |names|
      invariant bucket.id == created.id && bucket.owner == created.owner
      invariant bucket.files == created.files + {file}
      invariant bucket.templates == AddEntries(created.templates, owner, names[..i], IsDelegate(kind), file)
    {
      var name := names[i];
      var entry := CacheEntry(owner, name, IsDelegate(kind), file);
      AddEntriesSnoc(created.templates, owner, names, i, IsDelegate(kind), file);
      ghost var before := bucket.templates;
      var entries := if name in bucket.templates then bucket.templates[name] else {};
      bucket := bucket.(templates := bucket.templates[name := entries + {entry}]);
      assert bucket.templates == AddEntry(before, entry);
      i := i + 1;
    }
    assert names[..i] == names;
    r := CacheState(s.cache[owner := bucket], links, nextId);
  }

  /** All module caches and back-links, as one value. */
  datatype StoreState = StoreState(
    namespaceCaches: map<ModuleId, Cache>,
    delegateCaches: map<ModuleId, Cache>,
    templateLinks: BackLinks,
    delegateLinks: BackLinks,
    nextId: nat)
  {
    function NamespaceState(m: ModuleId): CacheState {
      CacheState(CacheOf(namespaceCaches, m), templateLinks, nextId)
    }

    function DelegateState(m: ModuleId): CacheState {
      CacheState(CacheOf(delegateCaches, m), delegateLinks, nextId)
    }

    /** Every module's caches are consistent, and every bucket and back-link
        identity has been issued. */
    ghost predicate Valid() {
      && (forall m :: m in namespaceCaches ==> CacheValid(namespaceCaches[m], false, nextId))
      && (forall m :: m in delegateCaches ==> CacheValid(delegateCaches[m], true, nextId))
      && LinksIssued(templateLinks, nextId)
      && LinksIssued(delegateLinks, nextId)
    }
  }

  /** removeFromCacheImpl on module m's namespace cache. */
  function RemoveNamespaceAt(st: StoreState, m: ModuleId, file: FileId): StoreState {
    st.(namespaceCaches := st.namespaceCaches[m := RemovePhase(NamespaceCacheKind, st.NamespaceState(m), file).cache])
  }

  /** removeFromCacheImpl on module m's delegate-package cache. */
  function RemoveDelegateAt(st: StoreState, m: ModuleId, file: FileId): StoreState {
    st.(delegateCaches := st.delegateCaches[m := RemovePhase(DelegateCacheKind, st.DelegateState(m), file).cache])
  }

  /** The namespace half of updateCacheImpl's add phase on module m. */
  function AddNamespaceAt(st: StoreState, m: ModuleId, namespace: string, templates: seq<string>, file: FileId): StoreState {
    var r := AddPhase(NamespaceCacheKind, st.NamespaceState(m), namespace, templates, file);
    st.(namespaceCaches := st.namespaceCaches[m := r.cache], templateLinks := r.links, nextId := r.nextId)
  }

  /** The delegate half of updateCacheImpl's add phase on module m. */
  function AddDelegateAt(st: StoreState, m: ModuleId, delegate: string, deltemplates: seq<string>, file: FileId): StoreState {
    var r := AddPhase(DelegateCacheKind, st.DelegateState(m), delegate, deltemplates, file);
    st.(delegateCaches := st.delegateCaches[m := r.cache], delegateLinks := r.links, nextId := r.nextId)
  }

  /** updateCache of an eligible file of module m whose document yields d,
      in the order the source performs it: both remove phases, then both add
      phases. */
  function UpdateStore(st: StoreState, m: ModuleId, file: FileId, d: Directives.Directives): StoreState {
    var removed := RemoveDelegateAt(RemoveNamespaceAt(st, m, file), m, file);
    AddDelegateAt(AddNamespaceAt(removed, m, d.namespace, d.templates, file), m, d.delegate, d.deltemplates, file)
  }

  /** One module's cache is consistent and its bucket identities are issued. */
  ghost predicate CacheValid(c: Cache, isDelegate: bool, nextId: nat) {
    Consistent(c, isDelegate) && forall k :: k in c ==> c[k].id < nextId
  }

  ghost predicate LinksIssued(links: BackLinks, nextId: nat) {
    forall f :: f in links ==> links[f].id < nextId
  }

  /** The modules a sequence lists. */
  function ModulesIn(modules: seq<ModuleId>): set<ModuleId> {
    set m | m in modules
  }

  lemma ModulesInPrefix(modules: seq<ModuleId>, i: nat)
    requires i < |modules|
    ensures ModulesIn(modules[..i + 1]) == ModulesIn(modules[..i]) + {modules[i]}
  {
    assert modules[..i + 1] == modules[..i] + [modules[i]];
  }

  /** The namespace remove phase applied to the caches of every module in targets. */
  function RemoveNamespaceIn(st: StoreState, targets: set<ModuleId>, file: FileId): StoreState {
    st.(namespaceCaches := map m | m in st.namespaceCaches.Keys + targets ::
      if m in targets then RemovePhase(NamespaceCacheKind, st.NamespaceState(m), file).cache
      else st.namespaceCaches[m])
  }

  /** The delegate remove phase applied to the caches of every module in targets. */
  function RemoveDelegateIn(st: StoreState, targets: set<ModuleId>, file: FileId): StoreState {
    st.(delegateCaches := map m | m in st.delegateCaches.Keys + targets ::
      if m in targets then RemovePhase(DelegateCacheKind, st.DelegateState(m), file).cache
      else st.delegateCaches[m])
  }

  /** The namespace remove phase keeps the store valid. */
  lemma RemoveNamespaceAtKeepsValid(st: StoreState, m: ModuleId, file: FileId)
    requires st.Valid()
    ensures RemoveNamespaceAt(st, m, file).Valid()
  {
    assert CacheValid(st.NamespaceState(m).cache, false, st.nextId);
  }

  /** The delegate remove phase keeps the store valid. */
  lemma RemoveDelegateAtKeepsValid(st: StoreState, m: ModuleId, file: FileId)
    requires st.Valid()
    ensures RemoveDelegateAt(st, m, file).Valid()
  {
    assert CacheValid(st.DelegateState(m).cache, true, st.nextId);
  }

  /** The add phases keep the store valid. */
  lemma AddNamespaceAtKeepsValid(st: StoreState, m: ModuleId, owner: string, names: seq<string>, file: FileId)
    requires st.Valid()
    ensures AddNamespaceAt(st, m, owner, names, file).Valid()
  {
    var s := st.NamespaceState(m);
    assert Consistent(s.cache, false) && IdsIssued(s);
    AddKeepsValid(NamespaceCacheKind, s, owner, names, file);
    var r := AddPhase(NamespaceCacheKind, s, owner, names, file);
    var st' := AddNamespaceAt(st, m, owner, names, file);
    forall m', k | m' in st'.namespaceCaches && k in st'.namespaceCaches[m']
      ensures st'.namespaceCaches[m'][k].id < st'.nextId
    {
      if m' != m {
        assert st'.namespaceCaches[m'] == st.namespaceCaches[m'];
      }
    }
  }

  lemma AddDelegateAtKeepsValid(st: StoreState, m: ModuleId, owner: string, names: seq<string>, file: FileId)
    requires st.Valid()
    ensures AddDelegateAt(st, m, owner, names, file).Valid()
  {
    var s := st.DelegateState(m);
    assert Consistent(s.cache, true) && IdsIssued(s);
    AddKeepsValid(DelegateCacheKind, s, owner, names, file);
    var r := AddPhase(DelegateCacheKind, s, owner, names, file);
    var st' := AddDelegateAt(st, m, owner, names, file);
    forall m', k | m' in st'.delegateCaches && k in st'.delegateCaches[m']
      ensures st'.delegateCaches[m'][k].id < st'.nextId
    {
      if m' != m {
        assert st'.delegateCaches[m'] == st.delegateCaches[m'];
      }
    }
  }

  /** An eligible update keeps the store valid. */
  lemma UpdateStoreKeepsValid(st: StoreState, m: ModuleId, file: FileId, d: Directives.Directives)
    requires st.Valid()
    ensures UpdateStore(st, m, file, d).Valid()
  {
    RemoveNamespaceAtKeepsValid(st, m, file);
    var st1 := RemoveNamespaceAt(st, m, file);
    RemoveDelegateAtKeepsValid(st1, m, file);
    var st2 := RemoveDelegateAt(st1, m, file);
    AddNamespaceAtKeepsValid(st2, m, d.namespace, d.templates, file);
    AddDelegateAtKeepsValid(AddNamespaceAt(st2, m, d.namespace, d.templates, file), m, d.delegate, d.deltemplates, file);
  }

  /** An eligible update registers the file in the bucket of its namespace,
      with an entry for every template it declares. */
  lemma UpdateStoreRegistersNamespace(st: StoreState, m: ModuleId, file: FileId, d: Directives.Directives)
    ensures var ns := CacheOf(UpdateStore(st, m, file, d).namespaceCaches, m);
      && d.namespace in ns && file in ns[d.namespace].files
      && forall t :: t in d.templates ==> CacheEntry(d.namespace, t, false, file) in ns[d.namespace].templates[t]
  {
    var st2 := RemoveDelegateAt(RemoveNamespaceAt(st, m, file), m, file);
    var st3 := AddNamespaceAt(st2, m, d.namespace, d.templates, file);
    var r := AddPhase(NamespaceCacheKind, st2.NamespaceState(m), d.namespace, d.templates, file);
    assert CacheOf(st3.namespaceCaches, m) == r.cache;
    assert UpdateStore(st, m, file, d).namespaceCaches == st3.namespaceCaches;
  }

  /** An eligible update registers the file in the bucket of its delegate
      package, with an entry for every delegate template it declares. */
  lemma UpdateStoreRegistersDelegate(st: StoreState, m: ModuleId, file: FileId, d: Directives.Directives)
    ensures var dp := CacheOf(UpdateStore(st, m, file, d).delegateCaches, m);
      && d.delegate in dp && file in dp[d.delegate].files
      && forall t :: t in d.deltemplates ==> CacheEntry(d.delegate, t, true, file) in dp[d.delegate].templates[t]
  {
    var st2 := RemoveDelegateAt(RemoveNamespaceAt(st, m, file), m, file);
    var st3 := AddNamespaceAt(st2, m, d.namespace, d.templates, file);
    var r := AddPhase(DelegateCacheKind, st3.DelegateState(m), d.delegate, d.deltemplates, file);
    assert CacheOf(UpdateStore(st, m, file, d).delegateCaches, m) == r.cache;
  }

  /** An eligible update leaves the namespace caches of every other module
      alone. */
  lemma UpdateStoreLeavesOtherNamespaceCaches(st: StoreState, m: ModuleId, file: FileId, d: Directives.Directives, other: ModuleId)
    requires other != m
    ensures CacheOf(UpdateStore(st, m, file, d).namespaceCaches, other) == CacheOf(st.namespaceCaches, other)
  {
    var st1 := RemoveNamespaceAt(st, m, file);
    var st2 := RemoveDelegateAt(st1, m, file);
    var st3 := AddNamespaceAt(st2, m, d.namespace, d.templates, file);
    assert CacheOf(st1.namespaceCaches, other) == CacheOf(st.namespaceCaches, other);
    assert st2.namespaceCaches == st1.namespaceCaches;
    assert CacheOf(st3.namespaceCaches, other) == CacheOf(st2.namespaceCaches, other);
    assert UpdateStore(st, m, file, d).namespaceCaches == st3.namespaceCaches;
  }

  /** An eligible update leaves the delegate-package caches of every other
      module alone. */
  lemma UpdateStoreLeavesOtherDelegateCaches(st: StoreState, m: ModuleId, file: FileId, d: Directives.Directives, other: ModuleId)
    requires other != m
    ensures CacheOf(UpdateStore(st, m, file, d).delegateCaches, other) == CacheOf(st.delegateCaches, other)
  {
    var st1 := RemoveNamespaceAt(st, m, file);
    var st2 := RemoveDelegateAt(st1, m, file);
    var st3 := AddNamespaceAt(st2, m, d.namespace, d.templates, file);
    assert st1.delegateCaches == st.delegateCaches;
    assert CacheOf(st2.delegateCaches, other) == CacheOf(st1.delegateCaches, other);
    assert st3.delegateCaches == st2.delegateCaches;
    assert CacheOf(AddDelegateAt(st3, m, d.delegate, d.deltemplates, file).delegateCaches, other) == CacheOf(st3.delegateCaches, other);
  }

  /** Both caches of the updated module are the single-cache update of their
      old state. The delegate update starts from the identity counter the
      namespace update left behind, since both draw from the same counter. */
  lemma UpdateStoreIsUpdatePhases(st: StoreState, m: ModuleId, file: FileId, d: Directives.Directives)
    ensures CacheOf(UpdateStore(st, m, file, d).namespaceCaches, m)
            == UpdatePhases(NamespaceCacheKind, st.NamespaceState(m), d.namespace, d.templates, file).cache
    ensures UpdateStore(st, m, file, d).templateLinks
            == UpdatePhases(NamespaceCacheKind, st.NamespaceState(m), d.namespace, d.templates, file).links
    ensures var afterNs := AddNamespaceAt(RemoveDelegateAt(RemoveNamespaceAt(st, m, file), m, file), m, d.namespace, d.templates, file);
            var u := UpdatePhases(DelegateCacheKind, st.DelegateState(m).(nextId := afterNs.nextId), d.delegate, d.deltemplates, file);
            CacheOf(UpdateStore(st, m, file, d).delegateCaches, m) == u.cache
            && UpdateStore(st, m, file, d).delegateLinks == u.links
  {
    var st2 := RemoveDelegateAt(RemoveNamespaceAt(st, m, file), m, file);
    assert st2.NamespaceState(m) == RemovePhase(NamespaceCacheKind, st.NamespaceState(m), file);
    var afterNs := AddNamespaceAt(st2, m, d.namespace, d.templates, file);
    assert afterNs.DelegateState(m) == RemovePhase(DelegateCacheKind, st.DelegateState(m).(nextId := afterNs.nextId), file);
  }

  /** Removing from one more module extends the set of modules removed from;
      removing twice from the same module changes nothing more. */
  lemma RemoveNamespaceInStep(st: StoreState, targets: set<ModuleId>, m: ModuleId, file: FileId)
    ensures RemoveNamespaceAt(RemoveNamespaceIn(st, targets, file), m, file)
            == RemoveNamespaceIn(st, targets + {m}, file)
  {
    var lhs := RemoveNamespaceAt(RemoveNamespaceIn(st, targets, file), m, file).namespaceCaches;
    var rhs := RemoveNamespaceIn(st, targets + {m}, file).namespaceCaches;
    assert lhs.Keys == rhs.Keys;
    forall m' | m' in lhs
      ensures lhs[m'] == rhs[m']
    {
    }
  }

  lemma RemoveDelegateInStep(st: StoreState, targets: set<ModuleId>, m: ModuleId, file: FileId)
    ensures RemoveDelegateAt(RemoveDelegateIn(st, targets, file), m, file)
            == RemoveDelegateIn(st, targets + {m}, file)
  {
    var lhs := RemoveDelegateAt(RemoveDelegateIn(st, targets, file), m, file).delegateCaches;
    var rhs := RemoveDelegateIn(st, targets + {m}, file).delegateCaches;
    assert lhs.Keys == rhs.Keys;
    forall m' | m' in lhs
      ensures lhs[m'] == rhs[m']
    {
    }
  }

  /** The remove phases, on any set of modules, keep the store valid. */
  lemma RemoveInKeepsValid(st: StoreState, targets: set<ModuleId>, file: FileId)
    requires st.Valid()
    ensures RemoveNamespaceIn(st, targets, file).Valid()
    ensures RemoveDelegateIn(st, targets, file).Valid()
    ensures RemoveDelegateIn(RemoveNamespaceIn(st, targets, file), targets, file).Valid()
  {
    forall m | m in targets
      ensures CacheValid(RemovePhase(NamespaceCacheKind, st.NamespaceState(m), file).cache, false, st.nextId)
      ensures CacheValid(RemovePhase(DelegateCacheKind, st.DelegateState(m), file).cache, true, st.nextId)
    {
      assert CacheValid(st.NamespaceState(m).cache, false, st.nextId);
      assert CacheValid(st.DelegateState(m).cache, true, st.nextId);
    }
    var st1 := RemoveNamespaceIn(st, targets, file);
    assert st1.Valid();
    forall m | m in targets
      ensures CacheValid(RemovePhase(DelegateCacheKind, st1.DelegateState(m), file).cache, true, st1.nextId)
    {
      assert st1.DelegateState(m) == st.DelegateState(m);
    }
  }

  /** Removing from the one module of the file is removing from the set of
      just that module. */
  lemma RemoveAtIsRemoveIn(st: StoreState, m: ModuleId, file: FileId)
    ensures RemoveNamespaceAt(st, m, file) == RemoveNamespaceIn(st, {m}, file)
    ensures RemoveDelegateAt(st, m, file) == RemoveDelegateIn(st, {m}, file)
  {
    RemoveInNothing(st, file);
    RemoveNamespaceInStep(st, {}, m, file);
    RemoveDelegateInStep(st, {}, m, file);
    assert {} + {m} == {m};
  }

  /** Removing from no module changes nothing. */
  lemma RemoveInNothing(st: StoreState, file: FileId)
    ensures RemoveNamespaceIn(st, {}, file) == st && RemoveDelegateIn(st, {}, file) == st
  {
    assert RemoveNamespaceIn(st, {}, file).namespaceCaches == st.namespaceCaches;
    assert RemoveDelegateIn(st, {}, file).delegateCaches == st.delegateCaches;
  }

  /** The module caches (NamespaceCache.getCache and
      DelegatePackageCache.getCache) and the file back-links
      (TemplateCache.fromFile and DelegateTemplateCache.fromFile), with the
      source of fresh bucket identities. */
  class CacheStore {
    var namespaceCaches: map<ModuleId, Cache>
    var delegateCaches: map<ModuleId, Cache>
    var templateLinks: BackLinks
    var delegateLinks: BackLinks
    var nextId: nat

    function State(): StoreState
      reads this
    {
      StoreState(namespaceCaches, delegateCaches, templateLinks, delegateLinks, nextId)
    }

    ghost predicate Valid()
      reads this
    {
      State().Valid()
    }

    constructor ()
      ensures Valid()
      ensures State() == StoreState(map[], map[], map[], map[], 0)
    {
      namespaceCaches, delegateCaches := map[], map[];
      templateLinks, delegateLinks := map[], map[];
      nextId := 0;
    }

    /** removeFromCacheImpl(NamespaceCache, file) on module m's cache. */
    method RemoveNamespaceBucketOf(m: ModuleId, file: FileId)
      modifies this
      ensures State() == RemoveNamespaceAt(old(State()), m, file)
    {
      var cache := CacheOf(namespaceCaches, m);
      var toRemove := LinkOf(templateLinks, file);
      if toRemove.Some? {
        var namespace := toRemove.value.owner;
        if namespace in cache && cache[namespace].id == toRemove.value.id {
          cache := cache - {namespace};
          if cache == map[] {
            cache := cache - {namespace};
          }
        }
      }
      namespaceCaches := namespaceCaches[m := cache];
    }

    /** removeFromCacheImpl(DelegatePackageCache, file) on module m's cache. */
    method RemoveDelegateBucketOf(m: ModuleId, file: FileId)
      modifies this
      ensures State() == RemoveDelegateAt(old(State()), m, file)
    {
      var cache := CacheOf(delegateCaches, m);
      var toRemove := LinkOf(delegateLinks, file);
      if toRemove.Some? {
        cache := cache - {toRemove.value.owner};
      }
      delegateCaches := delegateCaches[m := cache];
    }

    /** The fallback of removeFromCache: removeFromCacheImpl on the
        namespace cache of every module, in turn. */
    method RemoveNamespaceBucketsOf(modules: seq<ModuleId>, file: FileId)
      modifies this
      ensures State() == RemoveNamespaceIn(old(State()), ModulesIn(modules), file)
    {
      RemoveInNothing(State(), file);
      var i := 0;
      while i < |modules|
        invariant 0 <= i <= |modules|
        invariant State() == RemoveNamespaceIn(old(State()), ModulesIn(modules[..i]), file)
      {
        ghost var done := ModulesIn(modules[..i]);
        RemoveNamespaceBucketOf(modules[i], file);
        assert State() == RemoveNamespaceAt(RemoveNamespaceIn(old(State()), done, file), modules[i], file);
        RemoveNamespaceInStep(old(State()), done, modules[i], file);
        ModulesInPrefix(modules, i);
        i := i + 1;
      }
      assert modules[..i] == modules;
    }

    /** The fallback of removeFromCache: removeFromCacheImpl on the
        delegate-package cache of every module, in turn. */
    method RemoveDelegateBucketsOf(modules: seq<ModuleId>, file: FileId)
      modifies this
      ensures State() == RemoveDelegateIn(old(State()), ModulesIn(modules), file)
    {
      RemoveInNothing(State(), file);
      var i := 0;
      while i < |modules|
        invariant 0 <= i <= |modules|
        invariant State() == RemoveDelegateIn(old(State()), ModulesIn(modules[..i]), file)
      {
        ghost var done := ModulesIn(modules[..i]);
        RemoveDelegateBucketOf(modules[i], file);
        assert State() == RemoveDelegateAt(RemoveDelegateIn(old(State()), done, file), modules[i], file);
        RemoveDelegateInStep(old(State()), done, modules[i], file);
        ModulesInPrefix(modules, i);
        i := i + 1;
      }
      assert modules[..i] == modules;
    }

    /** The namespace half of updateCacheImpl's add phase on module m. */
    method AddToNamespaceCache(m: ModuleId, file: FileId, namespace: string, templates: seq<string>)
      modifies this
      ensures State() == AddNamespaceAt(old(State()), m, namespace, templates, file)
    {
      var ns := AddToCache(NamespaceCacheKind, State().NamespaceState(m), namespace, templates, file);
      namespaceCaches, templateLinks, nextId := namespaceCaches[m := ns.cache], ns.links, ns.nextId;
    }

    /** The delegate half of updateCacheImpl's add phase on module m. */
    method AddToDelegateCache(m: ModuleId, file: FileId, delegate: string, deltemplates: seq<string>)
      modifies this
      ensures State() == AddDelegateAt(old(State()), m, delegate, deltemplates, file)
    {
      var dp := AddToCache(DelegateCacheKind, State().DelegateState(m), delegate, deltemplates, file);
      delegateCaches, delegateLinks, nextId := delegateCaches[m := dp.cache], dp.links, dp.nextId;
    }
  }

  /** The add phase keeps one module's cache consistent and issues identities
      in order. */
  lemma AddKeepsValid(kind: CacheKind, s: CacheState, owner: string, names: seq<string>, file: FileId)
    requires Consistent(s.cache, IsDelegate(kind)) && IdsIssued(s)
    ensures var r := AddPhase(kind, s, owner, names, file);
      Consistent(r.cache, IsDelegate(kind)) && IdsIssued(r) && r.nextId >= s.nextId
  {
    AddKeepsConsistent(kind, s, owner, names, file);
    AddKeepsIdsIssued(kind, s, owner, names, file);
  }

  /** The updater proper: the disposed latch, the last-update stamp, and the
      caches it maintains. */
  class SoyCacheUpdater {
    var disposed: bool
    var lastUpdate: int
    const store: CacheStore

    ghost predicate Valid()
      reads this, store
    {
      store.Valid()
    }

    constructor (store: CacheStore)
      requires store.Valid()
      ensures Valid() && this.store == store
      ensures !disposed && lastUpdate == 0
    {
      this.store := store;
      disposed := false;
      lastUpdate := 0;
    }

    /** getNamespaceCache: the cache of the file's module (a cache is named
        by its module here), or null once disposed or when the file belongs
        to no module. */
    method GetNamespaceCache(fileModule: Option<ModuleId>) returns (cache: Option<ModuleId>)
      ensures cache.Some? <==> !disposed && fileModule.Some?
      ensures cache.Some? ==> cache == fileModule
    {
      if disposed {
        return None;
      }
      cache := fileModule;
    }

    /** getDelegatePackageCache, likewise. */
    method GetDelegatePackageCache(fileModule: Option<ModuleId>) returns (cache: Option<ModuleId>)
      ensures cache.Some? <==> !disposed && fileModule.Some?
      ensures cache.Some? ==> cache == fileModule
    {
      if disposed {
        return None;
      }
      cache := fileModule;
    }

    /** updateCacheImpl: extract the directives, then run the add phase on
        each cache that is present. */
    method UpdateCacheImpl(namespaceCache: Option<ModuleId>, delegatePackageCache: Option<ModuleId>,
                           file: FileId, document: Option<seq<Directives.Match>>)
      modifies store
      ensures var d := Directives.Extract(Directives.MatchesOf(document));
        var st1 := if namespaceCache.Some?
          then AddNamespaceAt(old(store.State()), namespaceCache.value, d.namespace, d.templates, file)
          else old(store.State());
        store.State() == if delegatePackageCache.Some?
          then AddDelegateAt(st1, delegatePackageCache.value, d.delegate, d.deltemplates, file)
          else st1
    {
      var d := Directives.ExtractDirectives(document);
      if namespaceCache.Some? {
        store.AddToNamespaceCache(namespaceCache.value, file, d.namespace, d.templates);
      }
      if delegatePackageCache.Some? {
        store.AddToDelegateCache(delegatePackageCache.value, file, d.delegate, d.deltemplates);
      }
    }

    /** updateCache: ignored once disposed or for an ineligible file;
        otherwise both remove phases, both add phases, and the stamp. */
    method UpdateCache(file: FileId, info: FileInfo, fileModule: Option<ModuleId>,
                       document: Option<seq<Directives.Match>>, now: int)
      requires Valid()
      modifies this, store
      ensures Valid() && disposed == old(disposed)
      ensures old(disposed) || !IsCacheableSoyFile(info) ==>
        lastUpdate == old(lastUpdate) && store.State() == old(store.State())
      ensures !old(disposed) && IsCacheableSoyFile(info) ==> lastUpdate == now
      ensures !old(disposed) && IsCacheableSoyFile(info) ==>
        store.State() == if fileModule.Some?
          then UpdateStore(old(store.State()), fileModule.value, file, Directives.Extract(Directives.MatchesOf(document)))
          else old(store.State())
    {
      if disposed {
        return;
      }
      if IsCacheableSoyFile(info) {
        ghost var st0 := store.State();
        var namespaceCache := GetNamespaceCache(fileModule);
        var delegatePackageCache := GetDelegatePackageCache(fileModule);
        assert namespaceCache == delegatePackageCache == fileModule;
        if namespaceCache.Some? {
          store.RemoveNamespaceBucketOf(namespaceCache.value, file);
        }
        if delegatePackageCache.Some? {
          store.RemoveDelegateBucketOf(delegatePackageCache.value, file);
        }
        if namespaceCache.Some? || delegatePackageCache.Some? {
          ghost var st2 := store.State();
          assert st2 == RemoveDelegateAt(RemoveNamespaceAt(st0, fileModule.value, file), fileModule.value, file);
          UpdateCacheImpl(namespaceCache, delegatePackageCache, file, document);
          assert store.State() == UpdateStore(st0, fileModule.value, file, Directives.Extract(Directives.MatchesOf(document)));
          UpdateStoreKeepsValid(st0, fileModule.value, file, Directives.Extract(Directives.MatchesOf(document)));
        }
        lastUpdate := now;
      }
    }

    /** processFile: the host's hook, which forwards to updateCache. */
    method ProcessFile(file: FileId, info: FileInfo, fileModule: Option<ModuleId>,
                       document: Option<seq<Directives.Match>>, now: int)
      requires Valid()
      modifies this, store
      ensures Valid() && disposed == old(disposed)
      ensures old(disposed) || !IsCacheableSoyFile(info) ==>
        lastUpdate == old(lastUpdate) && store.State() == old(store.State())
      ensures !old(disposed) && IsCacheableSoyFile(info) ==> lastUpdate == now
      ensures !old(disposed) && IsCacheableSoyFile(info) ==>
        store.State() == if fileModule.Some?
          then UpdateStore(old(store.State()), fileModule.value, file, Directives.Extract(Directives.MatchesOf(document)))
          else old(store.State())
    {
      if disposed {
        return;
      }
      UpdateCache(file, info, fileModule, document, now);
    }

    /** removeFromCache: the back-linked buckets are removed from the file's
        module, or from every module when the file has none. */
    method RemoveFromCache(file: FileId, fileModule: Option<ModuleId>, modules: seq<ModuleId>)
      requires Valid()
      modifies store
      ensures Valid()
      ensures old(disposed) ==> store.State() == old(store.State())
      ensures !old(disposed) && fileModule.Some? ==>
        store.State() == RemoveDelegateAt(RemoveNamespaceAt(old(store.State()), fileModule.value, file), fileModule.value, file)
      ensures !old(disposed) && fileModule.None? ==>
        store.State() == RemoveDelegateIn(RemoveNamespaceIn(old(store.State()), ModulesIn(modules), file), ModulesIn(modules), file)
    {
      if disposed {
        return;
      }
      ghost var st0 := store.State();
      var namespaceCache := GetNamespaceCache(fileModule);
      if namespaceCache.Some? {
        store.RemoveNamespaceBucketOf(namespaceCache.value, file);
      } else {
        store.RemoveNamespaceBucketsOf(modules, file);
      }
      var delegatePackageCache := GetDelegatePackageCache(fileModule);
      // The source tests namespaceCache here; both getters answer from the
      // same module, so the two tests agree.
      assert delegatePackageCache.Some? <==> namespaceCache.Some?;
      if delegatePackageCache.Some? {
        store.RemoveDelegateBucketOf(delegatePackageCache.value, file);
        RemoveNamespaceAtKeepsValid(st0, fileModule.value, file);
        RemoveDelegateAtKeepsValid(RemoveNamespaceAt(st0, fileModule.value, file), fileModule.value, file);
      } else {
        store.RemoveDelegateBucketsOf(modules, file);
        RemoveInKeepsValid(st0, ModulesIn(modules), file);
      }
    }

    /** dispose: set the latch; nothing else changes. */
    method Dispose()
      modifies this
      ensures disposed && lastUpdate == old(lastUpdate)
    {
      disposed := true;
    }
  }
}
