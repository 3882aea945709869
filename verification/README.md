# mplus host controller: record store and event dispatch, in Dafny

This project models the sequential logic of `app.js`, the host-side
controller of mplus. The controller receives structured events from the
script it injects into an instrumented process and routes them by their
`event` field. `DEBUG` and `METADATA` events are logged or saved. `GET`
and `PUT` events go to `db`, a small keyed record store. `db` keeps an
in-memory cache in front of one JSON file per key. Its helper `exclude`
copies an object without some of its properties.

Modules (one concept each):

- `Wrappers` (`wrappers.dfy`): `Option`, standing in for JavaScript's `undefined`.
- `Json` (`json.dfy`): JSON values and JavaScript truthiness. A JavaScript
  object is an association list of `(name, value)` pairs in `Object.keys`
  order.
- `Objects` (`objects.dfy`): property lookup and `exclude`. It also spells
  out the source's own filter / map / reduce(`Object.assign`) composition,
  and proves that composition equal to `Exclude`.
- `Db` (`db.dfy`): the store. The file system is a map from path to parsed
  JSON content, and a path missing from the map is a missing file. The
  cache is a map from key to JSON value, and a key missing from the map is
  `undefined`. `Coherent` says every cached value equals what its file
  reads as. `init` establishes it for `.json` entries, `put` and `get`
  preserve it, and under it `get` shows exactly the file's content.
  `Db.Get` models the corrected cache test: only an own entry of the cache
  counts as a hit, not a member inherited from `Object.prototype`.
- `Dispatch` (`dispatch.dfy`): the message callback. The handler table
  becomes a tagged variant `Handler`, and `Dispatch` returns the effect
  together with the new store. `HandlerFor`, `Dispatch` and `Run` model the
  corrected handler test: only the four registered names select a handler,
  and every other event is warned about.
- `AsWritten` (`as_written.dfy`): the two lookups that, as written, treat
  names inherited from `Object.prototype` as entries (see Findings).
- `Scenarios` (`scenarios.dfy`): example PUT and GET scenarios.

Operations are pure functions. Each returns the new cache and file state
instead of mutating `db`.

## Model

| member | source | states |
|---|---|---|
| Objects.Lookup | app.js:49 | `obj[k]` is undefined exactly when the object has no own property named `k`; otherwise it is the value of the first property named `k` |
| Objects.Exclude | app.js:16-21 | the copy is a subsequence of the object (original order); it holds exactly the pairs whose name is neither excluded nor `__proto__` (the copy is built by assignment, and assigning `__proto__` sets a prototype instead of adding a property); every kept name reads the same value, and every excluded name and `__proto__` have no own property in the copy |
| Objects.ExcludeKeepsUnique | app.js:16-21 | the copy of an object with unique names has unique names |
| Objects.ExcludeDisjoint | app.js:16-21 | the copy equals the object if and only if no property carries an excluded name or `__proto__` |
| Objects.ExcludeNothing | app.js:16-21 | `exclude(obj, [])` equals `obj` if and only if `obj` has no own `__proto__` property |
| Objects.ExcludeIdempotent | app.js:16-21 | `exclude(exclude(o, k), k) == exclude(o, k)` |
| Objects.ExcludeByReduce | app.js:17-20 | the source's composition (filter the names, map each to a one-property object, reduce with `Object.assign`) yields exactly `Exclude` on any object with unique names; the one-property object mapped from `__proto__` is empty, so that name is dropped even when not excluded |
| Objects.LookupUnique | app.js:19 | in an object with unique names, `obj[k]` is the value stored beside `k` |
| Objects.AssignFresh | app.js:19-20 | `Object.assign` with a name the target lacks appends that property at the end, except `__proto__`, whose assignment adds no own property |
| Db.FilePath | app.js:45-47 | `fp(name)` ends in `.json`, and cutting that extension off leaves the directory followed by the name |
| Db.FilePathInjective | app.js:45-47 | `fp` maps distinct keys to distinct files |
| Db.CacheKey | app.js:38 | the derived key is a prefix of the entry's name, five characters shorter, or empty for a name shorter than five |
| Db.CacheKeyOfFilePath | app.js:38 | the cache key derived from the entry `k + ".json"` is `k`, so `fp` of it is that entry again |
| Db.FilePathOfCacheKey | app.js:35-38 | `fp` of an entry's derived cache key is the entry's own path if and only if its name ends in `.json` (the derivation cuts five characters unconditionally) |
| Db.LoadEntry | app.js:36-40 | a readable entry is cached under its derived key with its content; an unreadable one leaves the cache as it was, and so does an entry whose derived key is `__proto__` (that assignment runs the prototype setter); no other entry changes |
| Db.LoadAll | app.js:34-41 | after the read callbacks, the cache keys are the old keys plus the derived key of every readable entry other than `__proto__`, and nothing else |
| Db.LoadAllCoherent | app.js:34-41 | loading `.json` entries in any completion order keeps every cached value equal to its file |
| Db.Init | app.js:27-44 | `init` keeps the directory and files; a failed `readdir` leaves the cache empty; otherwise the cache keys are exactly the derived keys, other than `__proto__`, of the readable entries |
| Db.InitLoadsEveryFile | app.js:27-44 | after `init` over `.json` entries the cache is coherent, `__proto__` is never a cache entry, and every other readable entry's content is cached under its name without `.json` |
| Db.IndexName | app.js:49 | the index name is the string held by the first field named `index` |
| Db.StorageKey | app.js:49 | the key is the string held by the first field whose name is the index name |
| Db.Record | app.js:50 | the stored body is a subsequence of the payload with no own `event`, `index` or `__proto__` property, and every other name reads the same value |
| Db.Put | app.js:48-54 | the record body is cached under the key and written to `fp(key)`; the cache gains only that key, the files gain only that path, and every other entry and file keeps its value |
| Db.PutStoresRecord | app.js:50 | the stored body has no `event`, `index` or `__proto__` field, keeps the field `index` names unless it is one of those three (the removal of that field is commented out), and keeps every other field's value |
| Db.PutOnlyTouchesItsKey | app.js:51-52 | for every other key, its file reads the same after `put` and its cache membership is unchanged |
| Db.PutPreservesCoherence | app.js:48-54 | `put` keeps the cache coherent with the files |
| Db.FirstNonEvent | app.js:56 | finds a field exactly when some field is not named `event`, and the one found is preceded only by `event` fields |
| Db.LookupKey | app.js:56 | the lookup key is the string value of the first field not named `event` |
| Db.Get | app.js:55-65 | a hit happens exactly when the cached value is truthy, so an absent or cached-null entry is a miss; a hit changes nothing; a miss caches the file's content, or null when the file is missing; no other entry or file changes; the value shown is the one now cached |
| Db.GetPreservesCoherence | app.js:55-65 | `get` keeps the cache coherent with the files |
| Db.GetReadsThrough | app.js:57-63 | on a coherent store `get` shows exactly what reading the key's file gives, hit or miss |
| Db.GetIdempotent | app.js:55-65 | a second `get` of the same key leaves the store as the first one did and shows the same value |
| Db.PutThenGet | app.js:51-57 | a `get` of a key just put hits the cache and shows the stored body |
| Dispatch.HandlerFor | app.js:71-85 | an event name selects a handler exactly when it is that handler's registered name (DEBUG, METADATA, GET, PUT) |
| Dispatch.HandlerNameRoundTrip | app.js:71-85 | every handler is selected by its own name |
| Dispatch.EventName | app.js:109 | an event name is found only as the string held by the first field named `event`; none is found when that field is missing or holds a non-string |
| Dispatch.Selected | app.js:110 | a payload selects a handler exactly when its event name is that handler's registered name |
| Dispatch.Dispatch | app.js:106-117 | a `send` payload goes to the handler its event names, and the GET/PUT effects are those of `db.get`/`db.put`; any other event is warned about and leaves the store unchanged; DEBUG and METADATA leave the store unchanged; a non-`send` message is only reported |
| Dispatch.DispatchPreservesCoherence | app.js:106-117 | only GET and PUT change the store, and every message keeps a coherent store coherent |
| Dispatch.Run | app.js:106-117 | over any sequence of messages the directory stays the same and no cache entry or file is removed; a sequence of only non-`send` messages changes nothing |
| Dispatch.RunPreservesCoherence | app.js:106-117 | over any sequence of messages a coherent store stays coherent |
| AsWritten.CacheHitAsWritten | app.js:57 | as written, every corrected hit is a hit, and the only extra hits are uncached keys named like inherited members, all of which hit |
| AsWritten.GetAsWritten | app.js:57 | as written, `get` agrees with the corrected `get` except on an uncached key named like an inherited member, where it reports a hit and changes nothing |
| AsWritten.InheritedKeyHidesFile | app.js:57 | counterexample: with an empty cache, GET `constructor` reports a hit and never reads `constructor.json`, while the corrected `get` shows that file's record |
| AsWritten.WarnedAsWritten | app.js:110-113 | as written, a warning implies no handler matched; an unmatched name is warned about if and only if it is not an inherited member |
| AsWritten.InheritedEventNotWarned | app.js:110-113 | counterexample: event `toString` selects no handler, yet it is not warned about; the corrected dispatch reports it as unhandled |
| Scenarios.AliceFields | app.js:49 | the example PUT payload reads `event` as `"PUT"`, `index` as `"key"` and `key` as `"Alice"` |
| Scenarios.AliceKey | app.js:49 | the example PUT payload is stored under `"Alice"` |
| Scenarios.AliceSelectsPut | app.js:110-111 | the example PUT payload selects the PUT handler |
| Scenarios.AliceBody | app.js:50 | its stored body is `{key:"Alice", hp:100}` |
| Scenarios.AliceStored | app.js:51-52 | the body lands in the cache entry `"Alice"` and in the file `fp("Alice")` |
| Scenarios.PutAlice | app.js:84 | dispatching the example PUT payload reports key `"Alice"` and performs that `put` |
| Scenarios.GetAbsent | app.js:60-63 | GET of a key in neither the cache nor the files shows null and caches null, with no error |
| Scenarios.CachedNullIsReread | app.js:57 | a cached null is a miss, so GET re-reads the file and shows its current record |

## Left out

- Frida wiring is not modelled: device lookup, spawn, attach, script creation, load and resume (app.js:101-104, 119-120). These are foreign calls into a process-instrumentation library.
- The command-line check, the signal handlers and `stop` are not modelled (app.js:7-10, 89-96, 122-125). They are process lifecycle and asynchronous promise code.
- Assembling the injected script from `engine.js` and `inject.js` is not modelled (app.js:68-69). It is plain file I/O.
- The METADATA handler's file write is not modelled (app.js:77-82). It appears only as the effect `MetadataSaved(data)`, and the store is untouched. It writes outside the store's directory, asynchronously.
- Console output and its formatting are not modelled. The DEBUG handler is always modelled as logging, because the source's `DEBUG` constant is `true`. The value `get` logs is modelled as `shown`.
- `engine.js` is not modelled. Its constants and its three wrappers over Frida's `Memory` and `send` hold no logic to verify. The metadata indexer and the interception installer are not part of this model.
- Db.Init: the asynchronous `readdir`/`readJson` ordering is a parameter, namely the order the reads completed. A GET or PUT racing with those reads is not modelled.
- Db.CacheKey: names are sequences of Unicode scalar values, while `fileName.length` counts UTF-16 code units. The two agree on every name ending in `.json`, and so on every entry the model loads coherently. They differ on other names with characters outside the Basic Multilingual Plane: for `notes😀😀` (JavaScript length 9) the program derives `note`, the model `no`. A cut that splits a surrogate pair is not representable in the model.
- Db.Put: requires `index` to name an existing field that holds a string. JavaScript would coerce a missing or non-string key to a property name such as `"undefined"` or `"100"`, and that coercion is not modelled.
- Db.Get: requires the first field not named `event` to hold a string, for the same reason.
- Db.Put: a key named `__proto__` would replace the cache object's prototype instead of adding an entry. The model caches it as an ordinary entry. The same holds for the miss path of `Db.Get`. Only `init` models the setter, and it skips `__proto__.json`. The prototype that setter installs is not modelled either: as written, its fields would then read as cache hits.
- Db.Get: on a miss the content is logged (app.js:62) before it is cached (app.js:63). The template literal converts the content to a string. That throws a TypeError for an object with its own `toString` field, such as a file holding `{"toString": 1}`, or for an array holding such an object. The program then leaves the cache unchanged, while the model caches the content. The model does not say what happens after the throw. The same conversion can throw after a hit (app.js:58), with no state change, and after `put` has written the cache and the file (app.js:53).
- Db.Coherent: paths are compared as strings. Keys such as `"./b"` or `"a/../b"`, or `"B"` on a case-insensitive file system, name the same real file as `"b"` but different model paths. In the program, a `put` of such a key would leave the cache entry of `"b"` stale. FilePathInjective and the coherence lemmas hold only for this string-level file system.
- Db.Put: writing the file is modelled as always succeeding. In the program `outputJsonSync` can throw after the cache entry was already set (app.js:51-52), which leaves a cached record with no file.
- Dispatch.Message: a `send` payload is always an object. In the program a null or undefined payload makes `payload['event']` throw (app.js:109).
- Dispatch.EventName: a non-string `event` value is treated as unhandled. JavaScript would coerce it to a property name, so a one-element array `["GET"]` would select GET.
- Json: numbers are `real`, and files hold parsed JSON. A file that exists but does not parse is not distinguished. `readJSONSync` would show null for it, and `init` would skip it.
- Objects: an association list is taken to be already in `Object.keys` order, with integer-like names first. The JSON written by `put` is assumed to read back as the same record.

## Findings

| source | as written | input that shows it | evidently intended | confidence | as-written member | corrected member |
|---|---|---|---|---|---|---|
| app.js:57 | `if (this.cache[fname])` on a plain `{}` also finds the members every object inherits (`constructor`, `toString`, `valueOf`, ...), which are truthy | empty cache, file `db/constructor.json` holding a record, GET `{key:"constructor"}` reports a cached hit and never reads the file | only stored entries count as hits, so the file is read and its record cached | high, not executed | AsWritten.InheritedKeyHidesFile | Db.Get |
| app.js:110 | `event in EventHandlers` is also true for inherited member names, so such events get no "Unhandled event" warning (and `__proto__` or `__defineGetter__` throw when called) | payload `{event:"toString"}` | only the four registered handlers are dispatched; every other event is warned about | high, not executed | AsWritten.InheritedEventNotWarned | Dispatch.Dispatch |
