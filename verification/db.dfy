/** The controller's keyed record store `db` (app.js, lines 24-66): an
    in-memory cache in front of one JSON file per key. The file system is
    a finite map from path to parsed JSON content; a path that is not in
    the map is a missing file. */
module Db {
  import opened Wrappers
  import opened Json
  import opened Objects

  /** `db.ext`. */
  const Ext: string := ".json"

  /** The fields `put` strips from a payload before storing it. */
  const Dropped: seq<string> := ["event", "index"]

  /** The store's state: the directory set by `init`, the cache, and the files. */
  datatype Store = Store(path: string, cache: map<string, Json>, files: map<string, Json>)

  /** What `get` observed: whether the cache answered, the value it logged,
      and the store afterwards. */
  datatype GetResult = GetResult(hit: bool, shown: Json, store: Store)

  // ---------------------------------------------------------------- paths

  /** `db.fp(fname)`: the file that holds the record stored under `name`. */
  function FilePath(path: string, name: string): (p: string)
    ensures HasExt(p)
    ensures p[..|p| - |Ext|] == path + name
  {
    path + name + Ext
  }

  /** Distinct keys live in distinct files. */
  lemma FilePathInjective(path: string, a: string, b: string)
    requires FilePath(path, a) == FilePath(path, b)
    ensures a == b
  {
    var p := FilePath(path, a);
    assert |a| == |b|;
    assert a == p[|path|..|path| + |a|];
    assert b == p[|path|..|path| + |b|];
  }

  /** A directory entry whose name carries the `.json` extension. */
  predicate HasExt(fileName: string) {
    |fileName| >= |Ext| && fileName[|fileName| - |Ext|..] == Ext
  }

  /** The cache key `init` derives from a directory entry: the name with its
      last five characters cut off, whatever they are (JavaScript's
      `substring` clamps a negative end to zero). */
  function CacheKey(fileName: string): (k: string)
    ensures k <= fileName
    ensures |k| == if |fileName| >= |Ext| then |fileName| - |Ext| else 0
  {
    fileName[..if |fileName| >= |Ext| then |fileName| - |Ext| else 0]
  }

  /** `init` inverts `fp`: the entry `fp(k)` is cached under `k` again. */
  lemma CacheKeyOfFilePath(path: string, name: string)
    ensures CacheKey(name + Ext) == name
    ensures FilePath(path, CacheKey(name + Ext)) == path + name + Ext
  {
    assert (name + Ext)[..|name|] == name;
  }

  /** The file `fp` computes for an entry's cache key is that entry exactly
      when the entry's name ends in `.json`. */
  lemma FilePathOfCacheKey(path: string, fileName: string)
    ensures FilePath(path, CacheKey(fileName)) == path + fileName <==> HasExt(fileName)
  {
    var k := CacheKey(fileName);
    if HasExt(fileName) {
      assert fileName == k + fileName[|fileName| - |Ext|..];
    }
    if FilePath(path, k) == path + fileName {
      assert k + Ext == fileName by {
        assert (path + (k + Ext)) == path + k + Ext;
        assert (path + (k + Ext))[|path|..] == k + Ext;
        assert (path + fileName)[|path|..] == fileName;
      }
      assert fileName[|fileName| - |Ext|..] == (k + Ext)[|k|..];
    }
  }

  // ---------------------------------------------------------------- files

  /** `fse.readJSONSync(p, {throws: false})`: the content, or null when the
      file is missing. */
  function ReadFile(files: map<string, Json>, p: string): (v: Json)
    ensures p in files ==> v == files[p]
    ensures p !in files ==> v == JNull
  {
    if p in files then files[p] else JNull
  }

  /** Every cached value is what the key's file would give: the cache is
      invisible to readers. */
  ghost predicate Coherent(st: Store) {
    forall k :: k in st.cache ==> st.cache[k] == ReadFile(st.files, FilePath(st.path, k))
  }

  // ---------------------------------------------------------------- init

  /** One completed `readJson(path + name)` of `init`: a readable entry is
      cached under its derived key; a missing one only reports an error.
      Assigning the key `__proto__` on the cache object runs the prototype
      setter, so the entry `__proto__.json` adds no cache entry either. */
  function LoadEntry(cache: map<string, Json>, files: map<string, Json>, path: string, name: string): (r: map<string, Json>)
    ensures path + name in files && CacheKey(name) != ProtoName ==>
      r.Keys == cache.Keys + {CacheKey(name)} && r[CacheKey(name)] == files[path + name]
    ensures path + name !in files || CacheKey(name) == ProtoName ==> r == cache
    ensures forall k :: k in cache && k != CacheKey(name) ==> k in r && r[k] == cache[k]
  {
    if path + name in files && CacheKey(name) != ProtoName then cache[CacheKey(name) := files[path + name]]
    else cache
  }

  /** The `readJson` callbacks of `init`, in the order they completed. */
  function LoadAll(cache: map<string, Json>, files: map<string, Json>, path: string, names: seq<string>): (r: map<string, Json>)
    ensures r.Keys == cache.Keys + set n | n in names && path + n in files && CacheKey(n) != ProtoName :: CacheKey(n)
    decreases |names|
  {
    if names == [] then cache
    else
      var r := LoadAll(LoadEntry(cache, files, path, names[0]), files, path, names[1..]);
      assert forall n :: n in names <==> n == names[0] || n in names[1..];
      r
  }

  /** `db.init(path)`: `completed` is the directory listing in the order its
      reads completed, or None when `readdir` fails. */
  function Init(path: string, files: map<string, Json>, completed: Option<seq<string>>): (r: Store)
    ensures r.path == path && r.files == files
    ensures completed.None? ==> r.cache == map[]
    ensures completed.Some? ==>
      r.cache.Keys == set n | n in completed.value && path + n in files && CacheKey(n) != ProtoName :: CacheKey(n)
  {
    match completed
    case None => Store(path, map[], files)
    case Some(names) => Store(path, LoadAll(map[], files, path, names), files)
  }

  /** Loading `.json` entries keeps the cache coherent, in any completion order. */
  lemma {:induction false} LoadAllCoherent(st: Store, names: seq<string>)
    requires Coherent(st)
    requires forall n :: n in names ==> HasExt(n)
    ensures Coherent(st.(cache := LoadAll(st.cache, st.files, st.path, names)))
    decreases |names|
  {
    if names != [] {
      var n := names[0];
      FilePathOfCacheKey(st.path, n);
      var next := st.(cache := LoadEntry(st.cache, st.files, st.path, n));
      assert Coherent(next);
      assert forall m :: m in names[1..] ==> m in names;
      LoadAllCoherent(next, names[1..]);
    }
  }

  /** After `init` over `.json` entries, each readable entry's content is
      cached under its name without the extension, except `__proto__.json`,
      which is never cached. */
  lemma InitLoadsEveryFile(path: string, files: map<string, Json>, names: seq<string>)
    requires forall n :: n in names ==> HasExt(n)
    ensures Coherent(Init(path, files, Some(names)))
    ensures ProtoName !in Init(path, files, Some(names)).cache
    ensures forall n :: n in names && path + n in files && CacheKey(n) != ProtoName ==>
      CacheKey(n) in Init(path, files, Some(names)).cache &&
      Init(path, files, Some(names)).cache[CacheKey(n)] == files[path + n]
  {
    LoadAllCoherent(Store(path, map[], files), names);
    forall n | n in names && path + n in files && CacheKey(n) != ProtoName
      ensures Init(path, files, Some(names)).cache[CacheKey(n)] == files[path + n]
    {
      FilePathOfCacheKey(path, n);
    }
  }

  // ---------------------------------------------------------------- put

  /** `put` can run: `index` names a field, and that field holds a string. */
  predicate PutReady(payload: Obj) {
    match Lookup(payload, "index")
    case Some(JStr(ix)) => Lookup(payload, ix).Some? && Lookup(payload, ix).value.JStr?
    case _ => false
  }

  /** `payload['index']`: the name of the field that holds the storage key. */
  function IndexName(payload: Obj): (ix: string)
    requires PutReady(payload)
    ensures exists i :: (0 <= i < |payload| && payload[i] == ("index", JStr(ix)) &&
                         forall j :: 0 <= j < i ==> payload[j].0 != "index")
  {
    Lookup(payload, "index").value.s
  }

  /** `payload[payload['index']]`: the key `put` stores under. */
  function StorageKey(payload: Obj): (k: string)
    requires PutReady(payload)
    ensures exists i :: (0 <= i < |payload| && payload[i] == (IndexName(payload), JStr(k)) &&
                         forall j :: 0 <= j < i ==> payload[j].0 != IndexName(payload))
  {
    Lookup(payload, IndexName(payload)).value.s
  }

  /** `exclude(payload, ['event', 'index'])`: the record body `put` stores.
      Besides `event` and `index`, an own `__proto__` field is not copied. */
  function Record(payload: Obj): (r: Obj)
    ensures IsSubseq(r, payload)
    ensures Lookup(r, "event").None? && Lookup(r, "index").None? && Lookup(r, ProtoName).None?
    ensures forall k :: k !in Dropped && k != ProtoName ==> Lookup(r, k) == Lookup(payload, k)
  {
    Exclude(payload, Dropped)
  }

  /** `db.put(payload)`: write the record through the cache to its file. */
  function Put(st: Store, payload: Obj): (r: Store)
    requires PutReady(payload)
    ensures r.path == st.path
    ensures r.cache.Keys == st.cache.Keys + {StorageKey(payload)}
    ensures r.cache[StorageKey(payload)] == JObj(Record(payload))
    ensures forall k :: k in st.cache && k != StorageKey(payload) ==> r.cache[k] == st.cache[k]
    ensures r.files.Keys == st.files.Keys + {FilePath(st.path, StorageKey(payload))}
    ensures r.files[FilePath(st.path, StorageKey(payload))] == JObj(Record(payload))
    ensures forall p :: p in st.files && p != FilePath(st.path, StorageKey(payload)) ==> r.files[p] == st.files[p]
  {
    var k := StorageKey(payload);
    var data := JObj(Record(payload));
    st.(cache := st.cache[k := data], files := st.files[FilePath(st.path, k) := data])
  }

  /** The stored body has neither `event`, `index` nor `__proto__`, keeps the
      field that `index` named (unless it was one of those three), and keeps
      every other field's value. */
  lemma PutStoresRecord(payload: Obj)
    requires PutReady(payload)
    ensures Lookup(Record(payload), "event").None?
    ensures Lookup(Record(payload), "index").None?
    ensures Lookup(Record(payload), ProtoName).None?
    ensures IndexName(payload) !in Dropped && IndexName(payload) != ProtoName ==>
      Lookup(Record(payload), IndexName(payload)) == Some(JStr(StorageKey(payload)))
    ensures forall k :: k !in Dropped && k != ProtoName ==> Lookup(Record(payload), k) == Lookup(payload, k)
    ensures UniqueKeys(payload) ==> UniqueKeys(Record(payload))
  {
    if UniqueKeys(payload) {
      ExcludeKeepsUnique(payload, Dropped);
    }
  }

  /** `put` touches only its own key's cache entry and file: the file of
      every other key reads the same afterwards. */
  lemma PutOnlyTouchesItsKey(st: Store, payload: Obj, other: string)
    requires PutReady(payload)
    requires other != StorageKey(payload)
    ensures ReadFile(Put(st, payload).files, FilePath(st.path, other)) == ReadFile(st.files, FilePath(st.path, other))
    ensures other in Put(st, payload).cache <==> other in st.cache
  {
    if FilePath(st.path, other) == FilePath(st.path, StorageKey(payload)) {
      FilePathInjective(st.path, other, StorageKey(payload));
    }
  }

  /** `put` keeps the cache coherent with the files. */
  lemma PutPreservesCoherence(st: Store, payload: Obj)
    requires PutReady(payload)
    requires Coherent(st)
    ensures Coherent(Put(st, payload))
  {
    var r := Put(st, payload);
    forall k | k in r.cache
      ensures r.cache[k] == ReadFile(r.files, FilePath(r.path, k))
    {
      if k != StorageKey(payload) {
        PutOnlyTouchesItsKey(st, payload, k);
      }
    }
  }

  // ---------------------------------------------------------------- get

  /** The first field whose name is not `event`. */
  function FirstNonEvent(o: Obj): (r: Option<(string, Json)>)
    ensures r.Some? <==> exists i :: 0 <= i < |o| && o[i].0 != "event"
    ensures r.Some? ==> exists i :: (0 <= i < |o| && o[i] == r.value && r.value.0 != "event" &&
                                     forall j :: 0 <= j < i ==> o[j].0 == "event")
    decreases |o|
  {
    if o == [] then None
    else if o[0].0 != "event" then Some(o[0])
    else
      var r := FirstNonEvent(o[1..]);
      assert forall i :: 0 < i < |o| ==> o[1..][i - 1] == o[i];
      r
  }

  /** `get` can run: some field other than `event` comes first and holds a string. */
  predicate GetReady(payload: Obj) {
    FirstNonEvent(payload).Some? && FirstNonEvent(payload).value.1.JStr?
  }

  /** `payload[Object.keys(payload).filter(key => key !== 'event')[0]]`:
      the string held by the first field not named `event`. */
  function LookupKey(payload: Obj): (k: string)
    requires GetReady(payload)
    ensures exists i :: (0 <= i < |payload| && payload[i].0 != "event" && payload[i].1 == JStr(k) &&
                         forall j :: 0 <= j < i ==> payload[j].0 == "event")
  {
    FirstNonEvent(payload).value.1.s
  }

  /** `if (this.cache[fname])`: a cached value answers only if it is truthy. */
  predicate CacheHit(cache: map<string, Json>, k: string) {
    k in cache && Truthy(cache[k])
  }

  /** `db.get(payload)`: answer from the cache, or read the file and cache it. */
  function Get(st: Store, payload: Obj): (r: GetResult)
    requires GetReady(payload)
    ensures r.hit <==> CacheHit(st.cache, LookupKey(payload))
    ensures r.hit ==> r.store == st
    ensures r.store.path == st.path && r.store.files == st.files
    ensures r.store.cache.Keys == st.cache.Keys + {LookupKey(payload)}
    ensures !r.hit ==> r.store.cache[LookupKey(payload)] == ReadFile(st.files, FilePath(st.path, LookupKey(payload)))
    ensures forall k :: k in st.cache && k != LookupKey(payload) ==> r.store.cache[k] == st.cache[k]
    ensures r.shown == r.store.cache[LookupKey(payload)]
  {
    var k := LookupKey(payload);
    if CacheHit(st.cache, k) then GetResult(true, st.cache[k], st)
    else
      var content := ReadFile(st.files, FilePath(st.path, k));
      GetResult(false, content, st.(cache := st.cache[k := content]))
  }

  /** `get` keeps the cache coherent with the files. */
  lemma GetPreservesCoherence(st: Store, payload: Obj)
    requires GetReady(payload)
    requires Coherent(st)
    ensures Coherent(Get(st, payload).store)
  {
  }

  /** On a coherent store the cache is transparent: `get` shows exactly what
      reading the key's file shows, hit or miss. */
  lemma GetReadsThrough(st: Store, payload: Obj)
    requires GetReady(payload)
    requires Coherent(st)
    ensures Get(st, payload).shown == ReadFile(st.files, FilePath(st.path, LookupKey(payload)))
  {
  }

  /** A second `get` of the same key changes nothing more. */
  lemma GetIdempotent(st: Store, payload: Obj)
    requires GetReady(payload)
    ensures Get(Get(st, payload).store, payload).store == Get(st, payload).store
    ensures Get(Get(st, payload).store, payload).shown == Get(st, payload).shown
  {
  }

  /** A record just put is answered from the cache by a `get` of its key. */
  lemma PutThenGet(st: Store, put: Obj, get: Obj)
    requires PutReady(put)
    requires GetReady(get)
    requires LookupKey(get) == StorageKey(put)
    ensures Get(Put(st, put), get).hit
    ensures Get(Put(st, put), get).shown == JObj(Record(put))
    ensures Get(Put(st, put), get).store == Put(st, put)
  {
  }
}
