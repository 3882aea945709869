/** The controller's message callback (app.js, lines 106-117) and its
    `EventHandlers` table (app.js, lines 71-85), with the event kind as a
    tagged variant instead of a string-keyed lookup. */
module Dispatch {
  import opened Wrappers
  import opened Json
  import opened Objects
  import Db

  /** The four handlers of `EventHandlers`. */
  datatype Handler = Debug | Metadata | GetRecord | PutRecord

  /** The event name each handler is registered under. */
  function HandlerName(h: Handler): string {
    match h
    case Debug => "DEBUG"
    case Metadata => "METADATA"
    case GetRecord => "GET"
    case PutRecord => "PUT"
  }

  /** `event in EventHandlers`, answered by the table's own entries. */
  function HandlerFor(event: string): (r: Option<Handler>)
    ensures r.Some? ==> HandlerName(r.value) == event
    ensures r.None? <==> forall h: Handler :: HandlerName(h) != event
  {
    if event == "DEBUG" then Some(Debug)
    else if event == "METADATA" then Some(Metadata)
    else if event == "GET" then Some(GetRecord)
    else if event == "PUT" then Some(PutRecord)
    else None
  }

  /** Every handler is found under its own name. */
  lemma HandlerNameRoundTrip(h: Handler)
    ensures HandlerFor(HandlerName(h)) == Some(h)
  {
  }

  /** A message from the injected script: a `send` carrying a payload
      object, or anything else (an error report). */
  datatype Message = Send(payload: Obj) | Other

  /** What the callback did, besides changing the store. */
  datatype Effect =
    | Logged(data: Option<Json>)          // DEBUG: `[D] data`
    | MetadataSaved(data: Option<Json>)   // METADATA: written to metadata.json
    | Shown(value: Json)                  // GET: the value the store logged
    | Stored(key: string)                 // PUT: the key written
    | Unhandled(event: Option<Json>)      // `Unhandled event` warning
    | ErrorReported                       // a message that is not a `send`

  datatype Outcome = Outcome(effect: Effect, store: Db.Store)

  /** `payload['event']` when it is a string; JavaScript would coerce other
      values to a property name, see README. */
  function EventName(payload: Obj): (r: Option<string>)
    ensures r.Some? ==> exists i :: (0 <= i < |payload| && payload[i] == ("event", JStr(r.value)) &&
                                     forall j :: 0 <= j < i ==> payload[j].0 != "event")
    ensures r.None? ==> forall s :: Lookup(payload, "event") != Some(JStr(s))
  {
    match Lookup(payload, "event")
    case Some(JStr(s)) => Some(s)
    case _ => None
  }

  /** The handler a payload selects, if any. */
  function Selected(payload: Obj): (r: Option<Handler>)
    ensures r.Some? ==> EventName(payload) == Some(HandlerName(r.value))
    ensures r.None? ==> forall h: Handler :: EventName(payload) != Some(HandlerName(h))
  {
    match EventName(payload)
    case Some(e) => HandlerFor(e)
    case None => None
  }

  /** What the GET and PUT handlers need of their payload. */
  predicate WellFormed(msg: Message) {
    match msg
    case Other => true
    case Send(p) =>
      (Selected(p) == Some(GetRecord) ==> Db.GetReady(p)) &&
      (Selected(p) == Some(PutRecord) ==> Db.PutReady(p))
  }

  /** The message callback: route a `send` payload to the handler named by
      its `event`, warn about any other event, report other messages. */
  function Dispatch(st: Db.Store, msg: Message): (r: Outcome)
    requires WellFormed(msg)
    ensures msg.Other? ==> r == Outcome(ErrorReported, st)
    ensures msg.Send? ==> (r.effect.Unhandled? <==> Selected(msg.payload).None?)
    ensures msg.Send? && Selected(msg.payload).None? ==> r.store == st
    ensures msg.Send? && Selected(msg.payload) == Some(Debug) ==>
      r == Outcome(Logged(Lookup(msg.payload, "data")), st)
    ensures msg.Send? && Selected(msg.payload) == Some(Metadata) ==>
      r == Outcome(MetadataSaved(Lookup(msg.payload, "data")), st)
    ensures msg.Send? && Selected(msg.payload) == Some(GetRecord) ==>
      r.store == Db.Get(st, msg.payload).store && r.effect == Shown(Db.Get(st, msg.payload).shown)
    ensures msg.Send? && Selected(msg.payload) == Some(PutRecord) ==>
      r.store == Db.Put(st, msg.payload) && r.effect == Stored(Db.StorageKey(msg.payload))
  {
    match msg
    case Other => Outcome(ErrorReported, st)
    case Send(p) =>
      match Selected(p)
      case None => Outcome(Unhandled(Lookup(p, "event")), st)
      case Some(Debug) => Outcome(Logged(Lookup(p, "data")), st)
      case Some(Metadata) => Outcome(MetadataSaved(Lookup(p, "data")), st)
      case Some(GetRecord) =>
        var g := Db.Get(st, p);
        Outcome(Shown(g.shown), g.store)
      case Some(PutRecord) => Outcome(Stored(Db.StorageKey(p)), Db.Put(st, p))
  }

  /** Only GET and PUT events touch the store; and a store kept coherent by
      every message stays coherent. */
  lemma DispatchPreservesCoherence(st: Db.Store, msg: Message)
    requires WellFormed(msg)
    requires Db.Coherent(st)
    ensures Db.Coherent(Dispatch(st, msg).store)
    ensures Dispatch(st, msg).store != st ==>
      msg.Send? && Selected(msg.payload) in {Some(GetRecord), Some(PutRecord)}
  {
    if msg.Send? && Selected(msg.payload) == Some(PutRecord) {
      Db.PutPreservesCoherence(st, msg.payload);
    }
  }

  /** Replaying a sequence of messages. The store's directory never changes,
      and no cache entry or file is ever removed. */
  function Run(st: Db.Store, msgs: seq<Message>): (r: Db.Store)
    requires forall m :: m in msgs ==> WellFormed(m)
    ensures r.path == st.path
    ensures st.cache.Keys <= r.cache.Keys
    ensures st.files.Keys <= r.files.Keys
    ensures (forall m :: m in msgs ==> m.Other?) ==> r == st
    decreases |msgs|
  {
    if msgs == [] then st
    else
      assert msgs[0] in msgs;
      assert forall m :: m in msgs[1..] ==> m in msgs;
      Run(Dispatch(st, msgs[0]).store, msgs[1..])
  }

  /** Starting from a coherent store (such as one `init` loaded from `.json`
      files), the cache stays coherent over any message sequence, so every
      GET shows what the key's file holds. */
  lemma {:induction false} RunPreservesCoherence(st: Db.Store, msgs: seq<Message>)
    requires forall m :: m in msgs ==> WellFormed(m)
    requires Db.Coherent(st)
    ensures Db.Coherent(Run(st, msgs))
    decreases |msgs|
  {
    if msgs != [] {
      assert msgs[0] in msgs;
      DispatchPreservesCoherence(st, msgs[0]);
      assert forall m :: m in msgs[1..] ==> m in msgs;
      RunPreservesCoherence(Dispatch(st, msgs[0]).store, msgs[1..]);
    }
  }
}
