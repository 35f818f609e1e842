/** The state SoyCacheUpdater works on, as values: cache entries, template
    buckets (TemplateCache / DelegateTemplateCache), one module's namespace
    or delegate-package cache, and the back-link from a file to the bucket it
    last registered in (TemplateCache.fromFile / DelegateTemplateCache.fromFile).
    The remove and add phases of an update are functions here; the updater's
    methods are proved to perform them. */
module Caches {
  import opened Wrappers

  /** A VirtualFile, by identity. */
  type FileId = nat

  /** One declaration: template `name` under namespace or delegate package
      `owner`, declared in `file`. */
  datatype CacheEntry = CacheEntry(owner: string, name: string, isDelegate: bool, file: FileId)

  type Templates = map<string, set<CacheEntry>>

  /** A template bucket. `id` stands for the object's identity, which the
      remove phase compares with ==. */
  datatype Bucket = Bucket(id: nat, owner: string, files: set<FileId>, templates: Templates)

  /** A namespace cache or a delegate-package cache of one module. */
  type Cache = map<string, Bucket>

  /** What the back-link recovers of a bucket: its owner key and identity. */
  datatype BucketRef = BucketRef(owner: string, id: nat)

  type BackLinks = map<FileId, BucketRef>

  datatype CacheKind = NamespaceCacheKind | DelegateCacheKind

  function IsDelegate(kind: CacheKind): bool {
    kind == DelegateCacheKind
  }

  /** One kind of cache of one module, the back-links of that kind, and the
      next unused bucket identity. */
  datatype CacheState = CacheState(cache: Cache, links: BackLinks, nextId: nat)

  function LinkOf(links: BackLinks, file: FileId): Option<BucketRef> {
    if file in links then Some(links[file]) else None
  }

  /** Every entry sits under its own name, in the bucket of its own owner, has
      the cache's delegate flag, and comes from a contributing file. */
  ghost predicate Consistent(c: Cache, isDelegate: bool) {
    forall k :: k in c ==> BucketConsistent(c[k], k, isDelegate)
  }

  ghost predicate BucketConsistent(b: Bucket, key: string, isDelegate: bool) {
    && b.owner == key
    && forall name, e :: name in b.templates && e in b.templates[name] ==>
         e.owner == key && e.name == name && e.isDelegate == isDelegate && e.file in b.files
  }

  /** Bucket identities and back-linked identities are all already issued. */
  ghost predicate IdsIssued(s: CacheState) {
    && (forall k :: k in s.cache ==> s.cache[k].id < s.nextId)
    && (forall f :: f in s.links ==> s.links[f].id < s.nextId)
  }

  /** Every contributing file links back to the bucket it contributes to. */
  ghost predicate Coherent(s: CacheState) {
    forall k, f :: k in s.cache && f in s.cache[k].files ==>
      f in s.links && s.links[f] == BucketRef(k, s.cache[k].id)
  }

  /** Namespace remove phase: drop the key of the back-linked bucket, and only
      when the bucket stored under that key is that very bucket. */
  function RemoveNamespaceBucket(c: Cache, link: Option<BucketRef>): (r: Cache)
    ensures forall k :: k in r ==> k in c && r[k] == c[k]
    ensures forall k :: k in c ==> (k !in r <==> link == Some(BucketRef(k, c[k].id)))
  {
    if link.Some? && link.value.owner in c && c[link.value.owner].id == link.value.id
    then c - {link.value.owner}
    else c
  }

  /** Delegate remove phase: drop the key of the back-linked bucket, whatever
      is stored there. */
  function RemoveDelegateBucket(c: Cache, link: Option<BucketRef>): (r: Cache)
    ensures forall k :: k in r ==> k in c && r[k] == c[k]
    ensures forall k :: k in c ==> (k !in r <==> link.Some? && link.value.owner == k)
  {
    if link.Some? then c - {link.value.owner} else c
  }

  function RemovePhase(kind: CacheKind, s: CacheState, file: FileId): CacheState {
    var link := LinkOf(s.links, file);
    if kind == NamespaceCacheKind then s.(cache := RemoveNamespaceBucket(s.cache, link))
    else s.(cache := RemoveDelegateBucket(s.cache, link))
  }

  /** TinySet.add: one more entry under its name. */
  function AddEntry(t: Templates, e: CacheEntry): Templates {
    t[e.name := (if e.name in t then t[e.name] else {}) + {e}]
  }

  /** The entries of a bucket after the entry of each listed name, in order,
      has been added. */
  function AddEntries(t: Templates, owner: string, names: seq<string>, isDelegate: bool, file: FileId): Templates {
    if names == [] then t
    else AddEntry(AddEntries(t, owner, names[..|names| - 1], isDelegate, file),
                  CacheEntry(owner, names[|names| - 1], isDelegate, file))
  }

  function NamesIn(names: seq<string>): set<string> {
    set n | n in names
  }

  /** Every listed name gets its entry, nothing else is added and nothing is
      lost. */
  lemma {:induction false} AddEntriesContents(t: Templates, owner: string, names: seq<string>, isDelegate: bool, file: FileId)
    ensures var r := AddEntries(t, owner, names, isDelegate, file);
      && r.Keys == t.Keys + NamesIn(names)
      && (forall k :: k in t ==> k in r && t[k] <= r[k])
      && (forall n :: n in names ==> n in r && CacheEntry(owner, n, isDelegate, file) in r[n])
      && (forall k, e :: k in r && e in r[k] ==>
            (k in t && e in t[k]) || (k in names && e == CacheEntry(owner, k, isDelegate, file)))
  {
    if names == [] {
      assert NamesIn(names) == {};
    } else {
      var pre, n := names[..|names| - 1], names[|names| - 1];
      AddEntriesContents(t, owner, pre, isDelegate, file);
      assert names == pre + [n];
      assert NamesIn(names) == NamesIn(pre) + {n};
      var r0 := AddEntries(t, owner, pre, isDelegate, file);
      assert AddEntries(t, owner, names, isDelegate, file) == AddEntry(r0, CacheEntry(owner, n, isDelegate, file));
      assert AddEntry(r0, CacheEntry(owner, n, isDelegate, file)).Keys == r0.Keys + {n};
    }
  }

  /** One more name adds its entry to what the names before it gave. */
  lemma AddEntriesSnoc(t: Templates, owner: string, names: seq<string>, i: nat, isDelegate: bool, file: FileId)
    requires i < |names|
    ensures AddEntries(t, owner, names[..i + 1], isDelegate, file)
            == AddEntry(AddEntries(t, owner, names[..i], isDelegate, file), CacheEntry(owner, names[i], isDelegate, file))
  {
    assert names[..i + 1][..i] == names[..i];
  }

  /** getOrCreate(owner): the stored bucket, or a new empty one with a fresh identity. */
  function GetOrCreate(s: CacheState, owner: string): Bucket {
    if owner in s.cache then s.cache[owner] else Bucket(s.nextId, owner, {}, map[])
  }

  /** Add phase: getOrCreate the owner's bucket, addFile (which also points
      the back-link at it), then add an entry for every template name. */
  function AddPhase(kind: CacheKind, s: CacheState, owner: string, names: seq<string>, file: FileId): (r: CacheState)
    ensures owner in r.cache && file in r.cache[owner].files
    ensures r.links == s.links[file := BucketRef(owner, r.cache[owner].id)]
    ensures forall t :: t in names ==>
      t in r.cache[owner].templates && CacheEntry(owner, t, IsDelegate(kind), file) in r.cache[owner].templates[t]
    ensures r.cache.Keys == s.cache.Keys + {owner}
    ensures forall k :: k in s.cache && k != owner ==> r.cache[k] == s.cache[k]
    ensures owner in s.cache ==>
      && r.nextId == s.nextId && r.cache[owner].id == s.cache[owner].id
      && r.cache[owner].files == s.cache[owner].files + {file}
    ensures owner !in s.cache ==>
      && r.nextId == s.nextId + 1 && r.cache[owner].id == s.nextId
      && r.cache[owner].files == {file}
  {
    var b := GetOrCreate(s, owner);
    AddEntriesContents(b.templates, owner, names, IsDelegate(kind), file);
    var b' := b.(files := b.files + {file},
                 templates := AddEntries(b.templates, owner, names, IsDelegate(kind), file));
    CacheState(s.cache[owner := b'],
               s.links[file := BucketRef(owner, b.id)],
               if owner in s.cache then s.nextId else s.nextId + 1)
  }

  /** The effect of one eligible update of `file` on one kind of cache. */
  function UpdatePhases(kind: CacheKind, s: CacheState, owner: string, names: seq<string>, file: FileId): CacheState {
    AddPhase(kind, RemovePhase(kind, s, file), owner, names, file)
  }

  /** The add phase keeps every entry under its name and owner: a bucket
      found by getOrCreate already has `owner` as its owner. */
  lemma AddKeepsConsistent(kind: CacheKind, s: CacheState, owner: string, names: seq<string>, file: FileId)
    requires Consistent(s.cache, IsDelegate(kind))
    ensures Consistent(AddPhase(kind, s, owner, names, file).cache, IsDelegate(kind))
  {
    var r := AddPhase(kind, s, owner, names, file);
    var b := GetOrCreate(s, owner);
    assert BucketConsistent(b, owner, IsDelegate(kind));
    AddedBucketConsistent(b, owner, names, IsDelegate(kind), file);
    assert r.cache[owner] == b.(files := b.files + {file},
                                templates := AddEntries(b.templates, owner, names, IsDelegate(kind), file));
  }

  lemma AddedBucketConsistent(b: Bucket, owner: string, names: seq<string>, isDelegate: bool, file: FileId)
    requires BucketConsistent(b, owner, isDelegate)
    ensures BucketConsistent(b.(files := b.files + {file},
                                templates := AddEntries(b.templates, owner, names, isDelegate, file)),
                             owner, isDelegate)
  {
    AddEntriesContents(b.templates, owner, names, isDelegate, file);
  }

  /** Both phases of an update keep the cache consistent. */
  lemma UpdateKeepsConsistent(kind: CacheKind, s: CacheState, owner: string, names: seq<string>, file: FileId)
    requires Consistent(s.cache, IsDelegate(kind))
    ensures Consistent(UpdatePhases(kind, s, owner, names, file).cache, IsDelegate(kind))
  {
    assert Consistent(RemovePhase(kind, s, file).cache, IsDelegate(kind));
    AddKeepsConsistent(kind, RemovePhase(kind, s, file), owner, names, file);
  }

  /** The add phase issues a fresh identity only for a new bucket. */
  lemma AddKeepsIdsIssued(kind: CacheKind, s: CacheState, owner: string, names: seq<string>, file: FileId)
    requires IdsIssued(s)
    ensures IdsIssued(AddPhase(kind, s, owner, names, file))
    ensures AddPhase(kind, s, owner, names, file).nextId >= s.nextId
  {
  }

  lemma UpdateKeepsIdsIssued(kind: CacheKind, s: CacheState, owner: string, names: seq<string>, file: FileId)
    requires IdsIssued(s)
    ensures IdsIssued(UpdatePhases(kind, s, owner, names, file))
  {
    assert IdsIssued(RemovePhase(kind, s, file));
    AddKeepsIdsIssued(kind, RemovePhase(kind, s, file), owner, names, file);
  }

  /** With coherent back-links, the remove phase takes away every bucket the
      file contributes to. */
  lemma RemoveClearsFile(kind: CacheKind, s: CacheState, file: FileId)
    requires Coherent(s)
    ensures forall k :: k in RemovePhase(kind, s, file).cache ==> file !in RemovePhase(kind, s, file).cache[k].files
  {
  }

  /** An update keeps back-links coherent: the remove phase clears the file
      from its old bucket, and addFile links it to its new one. */
  lemma UpdateKeepsCoherent(kind: CacheKind, s: CacheState, owner: string, names: seq<string>, file: FileId)
    requires Coherent(s)
    ensures Coherent(UpdatePhases(kind, s, owner, names, file))
  {
    var s1 := RemovePhase(kind, s, file);
    RemoveClearsFile(kind, s, file);
    assert Coherent(s1);
    var r := AddPhase(kind, s1, owner, names, file);
    forall k, f | k in r.cache && f in r.cache[k].files
      ensures f in r.links && r.links[f] == BucketRef(k, r.cache[k].id)
    {
      if k != owner {
        assert k in s1.cache && r.cache[k] == s1.cache[k];
        assert f != file;
      }
    }
  }

  /** updateCache then removeFromCache: no bucket lists the file as a
      contributor any more, so (the cache being consistent) no entry of it
      is left. */
  lemma UpdateThenRemoveForgetsFile(kind: CacheKind, s: CacheState, owner: string, names: seq<string>, file: FileId)
    requires Coherent(s) && Consistent(s.cache, IsDelegate(kind))
    ensures var r := RemovePhase(kind, UpdatePhases(kind, s, owner, names, file), file).cache;
      forall k :: k in r ==> (file !in r[k].files &&
        forall name, e :: name in r[k].templates && e in r[k].templates[name] ==> e.file != file)
  {
    var s1 := UpdatePhases(kind, s, owner, names, file);
    UpdateKeepsCoherent(kind, s, owner, names, file);
    UpdateKeepsConsistent(kind, s, owner, names, file);
    RemoveClearsFile(kind, s1, file);
    assert Consistent(RemovePhase(kind, s1, file).cache, IsDelegate(kind));
  }

  /** What a cache holds, bucket identities aside. */
  function Contents(c: Cache): map<string, (set<FileId>, Templates)> {
    map k | k in c :: (c[k].files, c[k].templates)
  }

  /** Updating a file twice gives the same contents as updating it once,
      provided no other bucket of that owner survives the first remove phase
      (the second remove phase drops the whole bucket). */
  lemma UpdateTwiceWhenUnshared(kind: CacheKind, s: CacheState, owner: string, names: seq<string>, file: FileId)
    requires owner !in RemovePhase(kind, s, file).cache
    ensures var once := UpdatePhases(kind, s, owner, names, file);
      Contents(UpdatePhases(kind, once, owner, names, file).cache) == Contents(once.cache)
  {
    var s1 := RemovePhase(kind, s, file);
    var once := AddPhase(kind, s1, owner, names, file);
    var s2 := RemovePhase(kind, once, file);
    assert LinkOf(once.links, file) == Some(BucketRef(owner, once.cache[owner].id));
    assert s2.cache == s1.cache;
    var twice := AddPhase(kind, s2, owner, names, file);
    assert twice.cache[owner].templates == once.cache[owner].templates;
    assert Contents(twice.cache) == Contents(once.cache);
  }

  /** Two files in one namespace share a bucket; removing one of them drops
      the shared bucket, and with it the other file's entry too. */
  lemma RemovingOneFileDropsSharedBucket()
    ensures var empty := CacheState(map[], map[], 0);
      var one := UpdatePhases(NamespaceCacheKind, empty, "foo.bar", ["t"], 1);
      var both := UpdatePhases(NamespaceCacheKind, one, "foo.bar", ["t"], 2);
      && both.cache["foo.bar"].templates["t"] ==
           {CacheEntry("foo.bar", "t", false, 1), CacheEntry("foo.bar", "t", false, 2)}
      && "foo.bar" !in RemovePhase(NamespaceCacheKind, both, 1).cache
  {
    var empty := CacheState(map[], map[], 0);
    var one := UpdatePhases(NamespaceCacheKind, empty, "foo.bar", ["t"], 1);
    assert one.cache["foo.bar"].templates["t"] == {CacheEntry("foo.bar", "t", false, 1)};
    assert one.links[1] == BucketRef("foo.bar", 0);
    var both := UpdatePhases(NamespaceCacheKind, one, "foo.bar", ["t"], 2);
    assert RemovePhase(NamespaceCacheKind, one, 2) == one;
    assert both.cache["foo.bar"].id == 0;
    assert both.links[1] == BucketRef("foo.bar", 0);
  }
}
