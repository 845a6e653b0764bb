/**
  A parsed JSON document as Python's `json.load` hands it to the converters:
  dicts keep their insertion order, so an object is an ordered list of
  entries; numbers are kept as reals and never inspected.

  The three Python operations the narration cleaners apply to it are modelled
  with the exceptions they raise: `v[k]`, `del v[k]` and `for x in v`.
 */
module Json {
  import opened Exceptions

  datatype Value =
    | Null
    | Bool(b: bool)
    | Num(n: real)
    | Str(s: string)
    | Arr(items: seq<Value>)
    | Obj(entries: seq<(string, Value)>)

  type Entries = seq<(string, Value)>

  /** `list(d.keys())`: the keys in insertion order. */
  function Keys(e: Entries): (r: seq<string>)
    ensures |r| == |e|
  {
    seq(|e|, i requires 0 <= i < |e| => e[i].0)
  }

  /** A key is listed exactly when some entry is stored under it. */
  lemma KeysListed(e: Entries, k: string)
    ensures k in Keys(e) <==> exists v :: (k, v) in e
  {
    if k in Keys(e) {
      var i :| 0 <= i < |e| && Keys(e)[i] == k;
      assert (k, e[i].1) == e[i] && e[i] in e;
    }
    if v :| (k, v) in e {
      var i :| 0 <= i < |e| && e[i] == (k, v);
      assert Keys(e)[i] == k;
    }
  }

  /** A Python dict never holds a key twice. */
  predicate DistinctKeys(e: Entries)
  {
    forall i, j :: 0 <= i < j < |e| ==> e[i].0 != e[j].0
  }

  /** `d.get(k)`: the value stored under k, if any. */
  function Get(e: Entries, k: string): (r: Option<Value>)
    ensures r.Some? <==> k in Keys(e)
    ensures r.Some? ==> (k, r.value) in e
  {
    if e == [] then None
    else
      assert Keys(e) == [e[0].0] + Keys(e[1..]);
      if e[0].0 == k then Some(e[0].1) else Get(e[1..], k)
  }

  /** The dict left after deleting every key in ks; the other entries keep their order. */
  function Without(e: Entries, ks: set<string>): (r: Entries)
    ensures forall p :: p in r <==> p in e && p.0 !in ks
    ensures |r| <= |e|
  {
    if e == [] then []
    else if e[0].0 in ks then Without(e[1..], ks)
    else [e[0]] + Without(e[1..], ks)
  }

  /** `d[k] = v` for a key k already present: the entry keeps its position. */
  function Update(e: Entries, k: string, v: Value): (r: Entries)
    ensures Keys(r) == Keys(e)
  {
    if e == [] then []
    else if e[0].0 == k then
      assert Keys(e) == [k] + Keys(e[1..]) && Keys([(k, v)] + e[1..]) == [k] + Keys(e[1..]);
      [(k, v)] + e[1..]
    else
      var tail := Update(e[1..], k, v);
      assert Keys(e) == [e[0].0] + Keys(e[1..]) && Keys([e[0]] + tail) == [e[0].0] + Keys(tail);
      [e[0]] + tail
  }

  /** Deleting keys removes exactly those keys; every other key keeps its value. */
  lemma {:induction false} GetWithout(e: Entries, ks: set<string>, k: string)
    ensures Get(Without(e, ks), k) == if k in ks then None else Get(e, k)
  {
    if e != [] {
      GetWithout(e[1..], ks, k);
    }
  }

  /** Deleting keys one after the other is deleting them all at once. */
  lemma {:induction false} WithoutWithout(e: Entries, a: set<string>, b: set<string>)
    ensures Without(Without(e, a), b) == Without(e, a + b)
  {
    if e != [] {
      WithoutWithout(e[1..], a, b);
      if e[0].0 !in a {
        assert Without(e, a)[0] == e[0] && Without(e, a)[1..] == Without(e[1..], a);
      }
    }
  }

  /** Assigning to a present key changes that key's value and nothing else. */
  lemma {:induction false} GetUpdate(e: Entries, k: string, v: Value, j: string)
    requires k in Keys(e)
    ensures Get(Update(e, k, v), j) == if j == k then Some(v) else Get(e, j)
  {
    assert Keys(e) == [e[0].0] + Keys(e[1..]);
    if e[0].0 != k {
      GetUpdate(e[1..], k, v, j);
    }
  }

  /** Assigning a key its current value leaves the dict as it was. */
  lemma {:induction false} UpdateSame(e: Entries, k: string)
    requires k in Keys(e)
    ensures Update(e, k, Get(e, k).value) == e
  {
    assert Keys(e) == [e[0].0] + Keys(e[1..]);
    if e[0].0 != k {
      UpdateSame(e[1..], k);
    }
  }

  /** `v[k]` */
  function Subscript(v: Value, k: string): (r: Result<Value>)
    ensures r.Ok? <==> v.Obj? && k in Keys(v.entries)
    ensures r.Ok? ==> Get(v.entries, k) == Some(r.value)
    ensures r.Raise? ==> r.error == if v.Obj? then KeyError(k) else TypeError
  {
    match v
    case Obj(e) => (match Get(e, k) case Some(x) => Ok(x) case None => Raise(KeyError(k)))
    case _ => Raise(TypeError)
  }

  /** `del v[k]` */
  function Del(v: Value, k: string): (r: Result<Value>)
    ensures r.Ok? <==> v.Obj? && Get(v.entries, k).Some?
    ensures r.Raise? ==> r.error == if v.Obj? then KeyError(k) else TypeError
    ensures r.Ok? ==> r.value == Obj(Without(v.entries, {k}))
  {
    match v
    case Obj(e) => if Get(e, k).Some? then Ok(Obj(Without(e, {k}))) else Raise(KeyError(k))
    case _ => Raise(TypeError)
  }

  /**
    The values `for x in v:` visits: a list's elements, a dict's keys, a
    string's one-character strings; any other value is not iterable.
   */
  function Iter(v: Value): (r: Result<seq<Value>>)
    ensures r.Ok? <==> v.Arr? || v.Obj? || v.Str?
    ensures r.Raise? ==> r.error == TypeError
    ensures v.Arr? ==> r == Ok(v.items)
    ensures v.Obj? ==> |r.value| == |v.entries| && forall i :: 0 <= i < |v.entries| ==> r.value[i] == Str(v.entries[i].0)
    ensures v.Str? ==> |r.value| == |v.s| && forall i :: 0 <= i < |v.s| ==> r.value[i] == Str([v.s[i]])
  {
    match v
    case Arr(xs) => Ok(xs)
    case Obj(e) => Ok(seq(|e|, i requires 0 <= i < |e| => Str(e[i].0)))
    case Str(s) => Ok(seq(|s|, i requires 0 <= i < |s| => Str([s[i]])))
    case _ => Raise(TypeError)
  }
}
