/**
 The shape of a search hit as the row builder sees it: the `fields` object of
 one Elasticsearch hit, decoded into Go's untyped JSON values
 (`map[string]interface{}`).
 */
module Json {

  /** One decoded JSON value, as the row builder's type switch tells them apart.
      `Num` carries the exact value of the decoded 64-bit float. `Other` stands
      for every dynamic type the switch has no case for: a nested object, or a
      value of any other Go type. */
  datatype Value =
    | Null
    | Str(s: string)
    | Num(x: real)
    | Bool(b: bool)
    | Arr(elems: seq<Value>)
    | Other

  /** A hit: field name to value. */
  type Hit = map<string, Value>

  /** Go's `hit[f]` on a map of interfaces: a missing key reads as nil. The
      whole field name is the key; a dot in it is not a path separator. */
  function Lookup(hit: Hit, f: string): Value
  {
    if f in hit then hit[f] else Null
  }

  /** Lookup is flat: a field's value depends on its own key alone, so
      writing any other key leaves it unchanged. */
  lemma LookupIsFlat(hit: Hit, f: string, g: string, v: Value)
    requires g != f
    ensures Lookup(hit[g := v], f) == Lookup(hit, f)
  {
  }

  /** A dotted field name `a.b` is not a path: what is stored under `a`,
      nested object or not, has no bearing on the value read for `a.b`. */
  lemma DottedNameIsNotAPath(hit: Hit, a: string, b: string, v: Value)
    ensures Lookup(hit[a := v], a + "." + b) == Lookup(hit, a + "." + b)
  {
    assert |a + "." + b| > |a|;
    LookupIsFlat(hit, a + "." + b, a, v);
  }
}
