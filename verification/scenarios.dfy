/** Example scenarios of the store, stated on the model. */
module Scenarios {
  import opened Wrappers
  import opened Json
  import opened Objects
  import Db
  import Dispatch

  /** The payload `{event:"PUT", index:"key", key:"Alice", hp:100}`. */
  function AlicePut(): Obj {
    [("event", JStr("PUT")), ("index", JStr("key")), ("key", JStr("Alice")), ("hp", JNum(100.0))]
  }

  /** The record `{key:"Alice", hp:100}`. */
  function AliceRecord(): Obj {
    [("key", JStr("Alice")), ("hp", JNum(100.0))]
  }

  /** The payload's `event`, `index` and `key` fields. */
  lemma AliceFields()
    ensures Lookup(AlicePut(), "event") == Some(JStr("PUT"))
    ensures Lookup(AlicePut(), "index") == Some(JStr("key"))
    ensures Lookup(AlicePut(), "key") == Some(JStr("Alice"))
  {
  }

  /** The payload's storage key is "Alice". */
  lemma AliceKey()
    ensures Db.PutReady(AlicePut())
    ensures Db.StorageKey(AlicePut()) == "Alice"
  {
    AliceFields();
  }

  /** The payload selects the PUT handler. */
  lemma AliceSelectsPut()
    ensures Dispatch.Selected(AlicePut()) == Some(Dispatch.PutRecord)
  {
    AliceFields();
  }

  /** Stripping `event` and `index` leaves `{key:"Alice", hp:100}`. */
  lemma AliceBody()
    ensures Db.Record(AlicePut()) == AliceRecord()
  {
    var p := AlicePut();
    var tail := [("hp", JNum(100.0))];
    assert p[2..] == [("key", JStr("Alice"))] + tail && tail[1..] == [];
    assert Exclude(tail, Db.Dropped) == tail;
    assert Exclude(p[2..], Db.Dropped) == [("key", JStr("Alice"))] + tail;
    assert p[1..][1..] == p[2..];
  }

  /** The file of a key, written out. */
  lemma FilePathOfLiteral(path: string, key: string, file: string)
    requires file == key + Db.Ext
    ensures Db.FilePath(path, key) == path + file
  {
  }

  /** `put` of that payload writes `{key:"Alice", hp:100}` to the cache
      entry "Alice" and to the file `fp("Alice")`, which is `Alice.json`
      in the store's directory (FilePathOfLiteral). */
  lemma AliceStored(st: Db.Store)
    ensures Db.PutReady(AlicePut())
    ensures var put := Db.Put(st, AlicePut());
            && "Alice" in put.cache && put.cache["Alice"] == JObj(AliceRecord())
            && Db.FilePath(st.path, "Alice") in put.files
            && put.files[Db.FilePath(st.path, "Alice")] == JObj(AliceRecord())
  {
    AliceKey();
    AliceBody();
  }

  /** PUT `{event:"PUT", index:"key", key:"Alice", hp:100}` stores
      `{key:"Alice", hp:100}` under "Alice", in the cache and in `Alice.json`. */
  lemma PutAlice(st: Db.Store)
    ensures Dispatch.WellFormed(Dispatch.Send(AlicePut()))
    ensures Dispatch.Dispatch(st, Dispatch.Send(AlicePut())).effect == Dispatch.Stored("Alice")
    ensures Dispatch.Dispatch(st, Dispatch.Send(AlicePut())).store == Db.Put(st, AlicePut())
  {
    AliceKey();
    AliceSelectsPut();
  }

  /** GET of a key in neither the cache nor the files shows null, caches
      null, and is not an error. */
  lemma GetAbsent(st: Db.Store)
    requires "Bob" !in st.cache
    requires st.path + "Bob.json" !in st.files
    ensures var q := [("event", JStr("GET")), ("key", JStr("Bob"))];
            && Dispatch.WellFormed(Dispatch.Send(q))
            && Dispatch.Dispatch(st, Dispatch.Send(q)).effect == Dispatch.Shown(JNull)
            && "Bob" in Dispatch.Dispatch(st, Dispatch.Send(q)).store.cache
            && Dispatch.Dispatch(st, Dispatch.Send(q)).store.cache["Bob"] == JNull
  {
    var q := [("event", JStr("GET")), ("key", JStr("Bob"))];
    assert Lookup(q, "event") == Some(JStr("GET"));
    assert Db.LookupKey(q) == "Bob";
    FilePathOfLiteral(st.path, "Bob", "Bob.json");
  }

  /** A cached null is falsy, so a later GET reads the file again and picks
      up a record written there since. */
  lemma CachedNullIsReread(st: Db.Store, rec: Json)
    requires "Bob" in st.cache && st.cache["Bob"] == JNull
    requires st.path + "Bob.json" in st.files && st.files[st.path + "Bob.json"] == rec
    ensures var q := [("event", JStr("GET")), ("key", JStr("Bob"))];
            && Db.GetReady(q)
            && !Db.Get(st, q).hit
            && Db.Get(st, q).shown == rec
  {
    var q := [("event", JStr("GET")), ("key", JStr("Bob"))];
    assert Db.LookupKey(q) == "Bob";
    FilePathOfLiteral(st.path, "Bob", "Bob.json");
  }
}
