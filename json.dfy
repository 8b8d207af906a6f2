/** The structured documents a configuration is read from: JSON values whose objects keep their
    properties in the order they were added. */
module Json {
  import opened Wrappers
  import opened Seqs

  datatype Value =
    | Null
    | Bool(b: bool)
    | Num(n: int)
    | Str(s: string)
    | Arr(items: seq<Value>)
    | Obj(fields: Object)

  datatype Field = Field(key: string, value: Value)

  /** An object is its list of own properties, in insertion order. */
  type Object = seq<Field>

  /** The property names of `o`, in insertion order. */
  function Keys(o: Object): (ks: seq<string>)
    ensures |ks| == |o|
  {
    if o == [] then [] else [o[0].key] + Keys(o[1..])
  }

  /** `o` has an own property named `k`. */
  predicate Has(o: Object, k: string)
  {
    k in Keys(o)
  }

  /** An object as JavaScript builds it: no property name occurs twice. */
  predicate UniqueKeys(o: Object)
  {
    Distinct(Keys(o))
  }

  /** The value of property `k`, if `o` has one. */
  function Get(o: Object, k: string): (r: Option<Value>)
    ensures r.Some? <==> Has(o, k)
    ensures r.Some? ==> Field(k, r.value) in o
  {
    if o == [] then None
    else
      assert Keys(o) == [o[0].key] + Keys(o[1..]);
      if o[0].key == k then Some(o[0].value) else Get(o[1..], k)
  }

  /** Looking a property up in an object that starts with field `f`. */
  lemma GetCons(f: Field, o: Object)
    ensures forall j :: Get([f] + o, j) == if f.key == j then Some(f.value) else Get(o, j)
  {
    assert ([f] + o)[1..] == o;
  }

  /** Property assignment `o[k] = v`: an existing property keeps its place and takes the new
      value; a new property is added after all others. The object grows by one property exactly
      when `k` is new, and the assigned property is among its fields. */
  function Put(o: Object, k: string, v: Value): (r: Object)
    ensures Field(k, v) in r
    ensures |r| == if Has(o, k) then |o| else |o| + 1
  {
    if o == [] then [Field(k, v)]
    else if o[0].key == k then [Field(k, v)] + o[1..]
    else [o[0]] + Put(o[1..], k, v)
  }

  /** After `o[k] = v`, property `k` holds `v` and every other property is as it was. */
  lemma {:induction false} PutGet(o: Object, k: string, v: Value)
    ensures Get(Put(o, k, v), k) == Some(v)
    ensures forall j :: j != k ==> Get(Put(o, k, v), j) == Get(o, j)
  {
    if o != [] {
      assert o == [o[0]] + o[1..];
      GetCons(o[0], o[1..]);
      if o[0].key == k {
        GetCons(Field(k, v), o[1..]);
      } else {
        PutGet(o[1..], k, v);
        GetCons(o[0], Put(o[1..], k, v));
      }
    }
  }

  /** `o[k] = v` leaves the property names and their order alone, or appends `k` when it is new. */
  lemma {:induction false} PutKeys(o: Object, k: string, v: Value)
    ensures Keys(Put(o, k, v)) == if Has(o, k) then Keys(o) else Keys(o) + [k]
  {
    if o != [] {
      assert Keys(o) == [o[0].key] + Keys(o[1..]);
      var r := Put(o, k, v);
      if o[0].key == k {
        assert Keys(r) == [k] + Keys(o[1..]);
      } else {
        PutKeys(o[1..], k, v);
        assert Keys(r) == [o[0].key] + Keys(Put(o[1..], k, v));
      }
    }
  }

  /** Selects the names other than `k`. */
  function Other(k: string): string -> bool
  {
    j => j != k
  }

  /** Property deletion: the other properties keep their values and their order. */
  function Delete(o: Object, k: string): (r: Object)
    ensures !Has(r, k)
    ensures forall j :: j != k ==> Get(r, j) == Get(o, j)
    ensures Keys(r) == Filter(Keys(o), Other(k))
  {
    if o == [] then []
    else
      assert Keys(o) == [o[0].key] + Keys(o[1..]);
      var rest := Delete(o[1..], k);
      if o[0].key == k then rest
      else
        var r := [o[0]] + rest;
        assert Keys(r) == [o[0].key] + Keys(rest);
        r
  }

  /** After `o[k] = v`, the object has property `k` and the properties it had before. */
  lemma HasPut(o: Object, k: string, v: Value)
    ensures forall j :: Has(Put(o, k, v), j) <==> Has(o, j) || j == k
  {
    PutKeys(o, k, v);
  }

  /** Assignment never makes a property name occur twice. */
  lemma PutUnique(o: Object, k: string, v: Value)
    requires UniqueKeys(o)
    ensures UniqueKeys(Put(o, k, v))
  {
    PutKeys(o, k, v);
    if !Has(o, k) {
      DistinctAppend(Keys(o), k);
    }
  }

  /** Deletion never makes a property name occur twice. */
  lemma DeleteUnique(o: Object, k: string)
    requires UniqueKeys(o)
    ensures UniqueKeys(Delete(o, k))
  {
    FilterDistinct(Keys(o), Other(k));
  }
}
