/** Plain JavaScript objects as ordered association lists, and the
    `exclude` helper of the controller (app.js, lines 16-21). */
module Objects {
  import opened Wrappers
  import opened Json

  /** The property names of `o`, in `Object.keys` order. */
  function Keys(o: Obj): seq<string> {
    seq(|o|, i requires 0 <= i < |o| => o[i].0)
  }

  /** No property name occurs twice: true of every real JavaScript object. */
  predicate UniqueKeys(o: Obj) {
    forall i, j :: 0 <= i < j < |o| ==> o[i].0 != o[j].0
  }

  /** The one name whose assignment does not create an own property: for
      every plain object it names the setter of the object's prototype. */
  const ProtoName := "__proto__"

  /** `o[k]` as an own property: the value of the first property named `k`,
      or None when `o` has no own property named `k`. */
  function Lookup(o: Obj, k: string): (r: Option<Json>)
    ensures r.None? <==> k !in Keys(o)
    ensures r.Some? ==> exists i :: (0 <= i < |o| && o[i] == (k, r.value) &&
                                     forall j :: 0 <= j < i ==> o[j].0 != k)
    decreases |o|
  {
    if o == [] then None
    else
      assert Keys(o) == [o[0].0] + Keys(o[1..]);
      if o[0].0 == k then Some(o[0].1)
      else
        var r := Lookup(o[1..], k);
        assert forall i :: 0 < i < |o| ==> o[1..][i - 1] == o[i];
        r
  }

  /** `a` can be obtained from `b` by deleting elements. */
  ghost predicate IsSubseq<T>(a: seq<T>, b: seq<T>)
    decreases |b|
  {
    if a == [] then true
    else if b == [] then false
    else (a[0] == b[0] && IsSubseq(a[1..], b[1..])) || IsSubseq(a, b[1..])
  }

  /** `exclude(obj, keys)`: a copy of `obj` without the properties named in
      `keys`. The copy is built by assignment, so an own property named
      `__proto__` is not copied either: assigning it sets the copy's
      prototype instead. */
  function Exclude(o: Obj, ks: seq<string>): (r: Obj)
    ensures IsSubseq(r, o)
    ensures forall p :: p in r <==> p in o && p.0 !in ks && p.0 != ProtoName
    ensures forall k :: k !in ks && k != ProtoName ==> Lookup(r, k) == Lookup(o, k)
    ensures forall k :: k in ks || k == ProtoName ==> Lookup(r, k) == None
    decreases |o|
  {
    if o == [] then []
    else
      var rest := Exclude(o[1..], ks);
      assert forall p :: p in o <==> p == o[0] || p in o[1..];
      if o[0].0 in ks || o[0].0 == ProtoName then
        assert IsSubseq(rest, o);
        rest
      else
        var r := [o[0]] + rest;
        assert r[0] == o[0] && r[1..] == rest;
        assert forall p :: p in r <==> p == o[0] || p in rest;
        r
  }

  /** The copy of an object with unique names has unique names. */
  lemma {:induction false} ExcludeKeepsUnique(o: Obj, ks: seq<string>)
    requires UniqueKeys(o)
    ensures UniqueKeys(Exclude(o, ks))
    decreases |o|
  {
    if o != [] {
      ExcludeKeepsUnique(o[1..], ks);
      if o[0].0 !in ks && o[0].0 != ProtoName {
        var rest := Exclude(o[1..], ks);
        forall j | 0 <= j < |rest|
          ensures rest[j].0 != o[0].0
        {
          assert rest[j] in rest;
          var i :| 0 <= i < |o[1..]| && o[1..][i] == rest[j];
          assert o[i + 1] == rest[j];
        }
        var r := [o[0]] + rest;
        assert Exclude(o, ks) == r;
        forall i, j | 0 <= i < j < |r|
          ensures r[i].0 != r[j].0
        {
          if i > 0 {
            assert r[i] == rest[i - 1] && r[j] == rest[j - 1];
          } else {
            assert r[j] == rest[j - 1];
          }
        }
      }
    }
  }

  /** The copy equals the original exactly when no property carries a
      removed name or `__proto__`. */
  lemma {:induction false} ExcludeDisjoint(o: Obj, ks: seq<string>)
    ensures Exclude(o, ks) == o <==> forall p :: p in o ==> p.0 !in ks && p.0 != ProtoName
    decreases |o|
  {
    if o != [] {
      assert o[0] in o;
      assert forall p :: p in o[1..] ==> p in o;
      ExcludeDisjoint(o[1..], ks);
    }
  }

  /** `exclude(obj, [])` is a copy of `obj` exactly when `obj` has no own
      `__proto__` property. */
  lemma ExcludeNothing(o: Obj)
    ensures Exclude(o, []) == o <==> ProtoName !in Keys(o)
  {
    ExcludeDisjoint(o, []);
    assert (forall p :: p in o ==> p.0 != ProtoName) <==> ProtoName !in Keys(o) by {
      forall p | p in o ensures p.0 in Keys(o) {
        var i :| 0 <= i < |o| && o[i] == p;
        assert Keys(o)[i] == p.0;
      }
      if ProtoName in Keys(o) {
        var i :| 0 <= i < |o| && Keys(o)[i] == ProtoName;
        assert o[i] in o;
      }
    }
  }

  /** Excluding the same names twice is the same as excluding them once. */
  lemma ExcludeIdempotent(o: Obj, ks: seq<string>)
    ensures Exclude(Exclude(o, ks), ks) == Exclude(o, ks)
  {
    ExcludeDisjoint(Exclude(o, ks), ks);
  }

  // The source builds the copy as filter, map to one-property objects, and
  // a reduce with Object.assign. The functions below follow that shape step
  // by step; ExcludeByReduce's contract states that it equals Exclude.

  /** `Object.assign(res, {[k]: v})`: an existing property keeps its place
      and takes the new value; a new one is appended. Assigning `__proto__`
      runs the prototype setter and adds no own property. */
  function Assign(res: Obj, k: string, v: Json): Obj
    decreases |res|
  {
    if k == ProtoName then res
    else if res == [] then [(k, v)]
    else if res[0].0 == k then [(k, v)] + res[1..]
    else [res[0]] + Assign(res[1..], k, v)
  }

  /** `Object.assign(res, src)`: the properties of `src` assigned in order. */
  function AssignAll(res: Obj, src: Obj): Obj
    decreases |src|
  {
    if src == [] then res else AssignAll(Assign(res, src[0].0, src[0].1), src[1..])
  }

  /** `parts.reduce((res, o) => Object.assign(res, o), acc)`. */
  function ReduceAssign(acc: Obj, parts: seq<Obj>): Obj
    decreases |parts|
  {
    if parts == [] then acc else ReduceAssign(AssignAll(acc, parts[0]), parts[1..])
  }

  /** `names.filter(k => !ks.includes(k))`. */
  function KeepNames(names: seq<string>, ks: seq<string>): (r: seq<string>)
    ensures forall n :: n in r ==> n in names
    decreases |names|
  {
    if names == [] then []
    else if names[0] in ks then KeepNames(names[1..], ks)
    else [names[0]] + KeepNames(names[1..], ks)
  }

  /** `names.map(k => Object.assign({}, {[k]: o[k]}))`. */
  function Singles(names: seq<string>, o: Obj): seq<Obj>
    requires forall n :: n in names ==> n in Keys(o)
    decreases |names|
  {
    if names == [] then []
    else [Assign([], names[0], Lookup(o, names[0]).value)] + Singles(names[1..], o)
  }

  /** The parts that are not empty objects. */
  function NonEmpty(parts: seq<Obj>): (r: seq<Obj>)
    decreases |parts|
  {
    if parts == [] then []
    else if parts[0] == [] then NonEmpty(parts[1..])
    else [parts[0]] + NonEmpty(parts[1..])
  }

  /** Assigning an empty object changes nothing, so the reduce may skip it. */
  lemma {:induction false} ReduceNonEmpty(acc: Obj, parts: seq<Obj>)
    ensures ReduceAssign(acc, NonEmpty(parts)) == ReduceAssign(acc, parts)
    decreases |parts|
  {
    if parts != [] {
      if parts[0] == [] {
        ReduceNonEmpty(acc, parts[1..]);
      } else {
        var rest := NonEmpty(parts[1..]);
        assert ([parts[0]] + rest)[1..] == rest;
        ReduceNonEmpty(AssignAll(acc, parts[0]), parts[1..]);
      }
    }
  }

  /** `exclude` exactly as the source composes it. On every object with
      unique names (every JavaScript object) it is `Exclude`. */
  function ExcludeByReduce(o: Obj, ks: seq<string>): (r: Obj)
    ensures UniqueKeys(o) ==> r == Exclude(o, ks)
  {
    var r := ReduceAssign([], Singles(KeepNames(Keys(o), ks), o));
    if UniqueKeys(o) then
      assert o[0..] == o;
      SinglesOfKept(o, 0, ks);
      ReduceNonEmpty([], Singles(KeepNames(Keys(o), ks), o));
      ExcludeKeepsUnique(o, ks);
      assert Keys([]) == [];
      ReduceWrapped([], Exclude(o, ks));
      r
    else r
  }

  /** In an object with unique names, `o[name]` is the value beside that name. */
  lemma {:induction false} LookupUnique(o: Obj, i: nat)
    requires UniqueKeys(o)
    requires i < |o|
    ensures Lookup(o, o[i].0) == Some(o[i].1)
    decreases i
  {
    if i > 0 {
      assert o[1..][i - 1] == o[i];
      LookupUnique(o[1..], i - 1);
    }
  }

  /** Assigning a fresh name appends it, unless the name is `__proto__`,
      which leaves the own properties as they were. */
  lemma {:induction false} AssignFresh(res: Obj, k: string, v: Json)
    requires k !in Keys(res)
    ensures Assign(res, k, v) == if k == ProtoName then res else res + [(k, v)]
    decreases |res|
  {
    if res != [] && k != ProtoName {
      assert Keys(res) == [res[0].0] + Keys(res[1..]);
      AssignFresh(res[1..], k, v);
      assert res == [res[0]] + res[1..];
    }
  }

  /** The names of a suffix are names of the whole object. */
  lemma KeysOfSuffix(o: Obj, i: nat)
    requires i <= |o|
    ensures forall n :: n in Keys(o[i..]) ==> n in Keys(o)
  {
    forall n | n in Keys(o[i..]) ensures n in Keys(o) {
      var j :| 0 <= j < |o[i..]| && Keys(o[i..])[j] == n;
      assert Keys(o)[i + j] == n;
    }
  }

  /** The name at position `i` of a unique-named object is not among the later names. */
  lemma NameNotLater(o: Obj, i: nat)
    requires UniqueKeys(o)
    requires i < |o|
    ensures o[i].0 !in Keys(o[i + 1..])
  {
    var later := o[i + 1..];
    forall j | 0 <= j < |later|
      ensures Keys(later)[j] != o[i].0
    {
      assert later[j] == o[i + 1 + j];
    }
  }

  /** Each property as a one-property object. */
  function Wrap(x: Obj): seq<Obj>
    decreases |x|
  {
    if x == [] then [] else [[x[0]]] + Wrap(x[1..])
  }

  /** Filter then map over the names of the suffix `o[i..]` yields, once the
      empty objects made for `__proto__` are skipped, the kept properties of
      that suffix, one per object. */
  lemma {:induction false} SinglesOfKept(o: Obj, i: nat, ks: seq<string>)
    requires UniqueKeys(o)
    requires i <= |o|
    ensures forall n :: n in KeepNames(Keys(o[i..]), ks) ==> n in Keys(o)
    ensures NonEmpty(Singles(KeepNames(Keys(o[i..]), ks), o)) == Wrap(Exclude(o[i..], ks))
    decreases |o| - i
  {
    KeysOfSuffix(o, i);
    if i < |o| {
      var p := o[i];
      assert o[i..][0] == p && o[i..][1..] == o[i + 1..];
      assert Keys(o[i..]) == [p.0] + Keys(o[i + 1..]);
      var rest := KeepNames(Keys(o[i + 1..]), ks);
      SinglesOfKept(o, i + 1, ks);
      if p.0 in ks {
        assert KeepNames(Keys(o[i..]), ks) == rest;
        assert Exclude(o[i..], ks) == Exclude(o[i + 1..], ks);
      } else if p.0 == ProtoName {
        var s := Singles(rest, o);
        assert KeepNames(Keys(o[i..]), ks) == [p.0] + rest;
        assert ([p.0] + rest)[1..] == rest;
        assert Singles([p.0] + rest, o) == [[]] + s;
        assert ([[]] + s)[1..] == s;
        assert Exclude(o[i..], ks) == Exclude(o[i + 1..], ks);
      } else {
        var e := Exclude(o[i + 1..], ks);
        var s := Singles(rest, o);
        assert KeepNames(Keys(o[i..]), ks) == [p.0] + rest;
        assert ([p.0] + rest)[1..] == rest;
        LookupUnique(o, i);
        assert Singles([p.0] + rest, o) == [[p]] + s;
        assert ([[p]] + s)[1..] == s;
        assert Exclude(o[i..], ks) == [p] + e;
        assert ([p] + e)[1..] == e;
      }
    }
  }

  /** Reducing one-property objects with fresh, distinct names appends them. */
  lemma {:induction false} ReduceWrapped(acc: Obj, x: Obj)
    requires UniqueKeys(x)
    requires forall p :: p in x ==> p.0 != ProtoName
    requires forall k :: k in Keys(acc) ==> k !in Keys(x)
    ensures ReduceAssign(acc, Wrap(x)) == acc + x
    decreases |x|
  {
    if x != [] {
      var p := x[0];
      assert Keys(x) == [p.0] + Keys(x[1..]);
      assert p.0 !in Keys(acc) && p in x;
      assert forall q :: q in x[1..] ==> q in x;
      AssignFresh(acc, p.0, p.1);
      assert AssignAll(acc, [p]) == acc + [p];
      assert Keys(acc + [p]) == Keys(acc) + [p.0];
      NameNotLater(x, 0);
      assert x[0 + 1..] == x[1..];
      ReduceWrapped(acc + [p], x[1..]);
      assert acc + [p] + x[1..] == acc + x;
    }
  }
}
