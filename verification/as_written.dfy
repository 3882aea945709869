/** Two places where the controller looks a name up on a plain JavaScript
    object with an inheritance-aware test, so that the names every object
    inherits from Object.prototype ("constructor", "toString", ...) behave
    as if they were entries. Each is modelled here as written, next to a
    counterexample; the rest of the model uses the corrected lookups
    (Db.CacheHit and Dispatch.HandlerFor), which consult own entries only. */
module AsWritten {
  import opened Wrappers
  import opened Json
  import opened Objects
  import Db
  import Dispatch

  /** The properties every plain object inherits from Object.prototype; each
      reads as a function (or, for `__proto__`, an object), hence truthy. */
  const ObjectPrototypeMembers: set<string> := {
    "constructor", "__defineGetter__", "__defineSetter__", "hasOwnProperty",
    "__lookupGetter__", "__lookupSetter__", "isPrototypeOf",
    "propertyIsEnumerable", "toString", "valueOf", "__proto__", "toLocaleString"
  }

  /** `if (this.cache[fname])` on the `{}` cache: an own entry by its value,
      an inherited member always. */
  function CacheHitAsWritten(cache: map<string, Json>, k: string): (r: bool)
    ensures Db.CacheHit(cache, k) ==> r
    ensures r && !Db.CacheHit(cache, k) ==> k !in cache && k in ObjectPrototypeMembers
    ensures k !in cache && k in ObjectPrototypeMembers ==> r
  {
    if k in cache then Truthy(cache[k]) else k in ObjectPrototypeMembers
  }

  /** What `db.get` does as written: whether the cache test passed, and the store after. */
  datatype GetAsWrittenResult = GetAsWrittenResult(hit: bool, store: Db.Store)

  /** `db.get(payload)` as written. It agrees with Db.Get except on a key
      named like an inherited member with no cache entry, where it reports
      a hit and never reads the file. */
  function GetAsWritten(st: Db.Store, payload: Obj): (r: GetAsWrittenResult)
    requires Db.GetReady(payload)
    ensures !(Db.LookupKey(payload) in ObjectPrototypeMembers && Db.LookupKey(payload) !in st.cache) ==>
      r.hit == Db.Get(st, payload).hit && r.store == Db.Get(st, payload).store
    ensures Db.LookupKey(payload) in ObjectPrototypeMembers && Db.LookupKey(payload) !in st.cache ==>
      r.hit && r.store == st
  {
    var k := Db.LookupKey(payload);
    if CacheHitAsWritten(st.cache, k) then GetAsWrittenResult(true, st)
    else GetAsWrittenResult(false, st.(cache := st.cache[k := Db.ReadFile(st.files, Db.FilePath(st.path, k))]))
  }

  /** Counterexample: with an empty cache and a record in `constructor.json`,
      `GET constructor` as written reports a cache hit and leaves the cache
      without the record, while the corrected lookup reads and shows it. */
  lemma InheritedKeyHidesFile()
    ensures var rec := JObj([("hp", JNum(100.0))]);
            var st := Db.Store("db/", map[], map["db/constructor.json" := rec]);
            var q := [("event", JStr("GET")), ("key", JStr("constructor"))];
            && Db.GetReady(q)
            && Db.Coherent(st)
            && GetAsWritten(st, q).hit
            && "constructor" !in GetAsWritten(st, q).store.cache
            && !Db.Get(st, q).hit
            && Db.Get(st, q).shown == rec
            && Db.Get(st, q).store.cache["constructor"] == rec
  {
    var rec := JObj([("hp", JNum(100.0))]);
    var st := Db.Store("db/", map[], map["db/constructor.json" := rec]);
    var q := [("event", JStr("GET")), ("key", JStr("constructor"))];
    assert Db.LookupKey(q) == "constructor";
    assert Db.FilePath("db/", "constructor") == "db/constructor.json";
  }

  /** `event in EventHandlers` as written: true for the four handlers and
      for every inherited member; the warning is issued only otherwise. */
  function WarnedAsWritten(event: string): (r: bool)
    ensures r ==> Dispatch.HandlerFor(event).None?
    ensures Dispatch.HandlerFor(event).None? && event !in ObjectPrototypeMembers ==> r
    ensures event in ObjectPrototypeMembers ==> !r
  {
    !(Dispatch.HandlerFor(event).Some? || event in ObjectPrototypeMembers)
  }

  /** Counterexample: a `toString` event names no handler, yet as written it
      is not warned about; the corrected dispatch reports it as unhandled. */
  lemma InheritedEventNotWarned(st: Db.Store)
    ensures var p := [("event", JStr("toString"))];
            && !WarnedAsWritten("toString")
            && Dispatch.HandlerFor("toString").None?
            && Dispatch.Dispatch(st, Dispatch.Send(p)).effect.Unhandled?
  {
    var p := [("event", JStr("toString"))];
    assert Lookup(p, "event") == Some(JStr("toString"));
  }
}
