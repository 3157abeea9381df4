/**
  The per-collection cache hash of plumbca/backend.py (`hset`, `hmget`,
  `hdel` on one Redis hash per collection), with the identity encoding.
 */
module CacheHash {
  import opened Seqs

  /** `hmget(key, *fields)` with the missing fields dropped: the stored value
      of each named field that is present, in the order named. */
  function Present<V>(h: map<string, V>, fields: seq<string>): (r: seq<V>)
    ensures |r| <= |fields|
  {
    if fields == [] then []
    else
      var f := fields[|fields| - 1];
      var rest := Present(h, fields[..|fields| - 1]);
      if f in h then rest + [h[f]] else rest
  }

  /** Every value returned belongs to a named field that is present; when
      every named field is present the i-th value is that of the i-th field;
      when none is present nothing is returned. */
  lemma {:induction false} PresentExact<V>(h: map<string, V>, fields: seq<string>)
    ensures forall v :: v in Present(h, fields) ==> exists f :: f in fields && f in h && h[f] == v
    ensures (forall f :: f in fields ==> f in h) ==>
              |Present(h, fields)| == |fields| &&
              forall i :: 0 <= i < |fields| ==> Present(h, fields)[i] == h[fields[i]]
    ensures (forall f :: f in fields ==> f !in h) ==> Present(h, fields) == []
    decreases |fields|
  {
    if fields != [] {
      var n := |fields| - 1;
      var front := fields[..n];
      assert forall f :: f in fields <==> f in front || f == fields[n];
      PresentExact(h, front);
    }
  }

  /** `hdel(key, *fields)`: the hash without the named fields. */
  function Deleted<V>(h: map<string, V>, fields: seq<string>): map<string, V> {
    h - Elements(fields)
  }

  /** The reply of `hdel`: how many distinct named fields were present. It
      is the number of fields the hash lost, and 0 exactly when the hash is
      left as it was. */
  function DeletedCount<V>(h: map<string, V>, fields: seq<string>): (n: nat)
    ensures n <= |h|
    ensures n == |h| - |Deleted(h, fields)|
    ensures n == 0 <==> Deleted(h, fields) == h
  {
    var gone := Elements(fields) * h.Keys;
    assert Deleted(h, fields).Keys == h.Keys - gone;
    assert h.Keys == Deleted(h, fields).Keys + gone;
    assert gone == {} ==> Deleted(h, fields) == h;
    |gone|
  }

  /** `hdel` of fields none of which is present changes nothing and replies 0. */
  lemma DeleteAbsentIsNoop<V>(h: map<string, V>, fields: seq<string>)
    ensures (forall f :: f in fields ==> f !in h) ==> Deleted(h, fields) == h && DeletedCount(h, fields) == 0
  {
    if forall f :: f in fields ==> f !in h {
      assert Deleted(h, fields).Keys == h.Keys;
    }
  }

  /** A second `hdel` of the same fields changes nothing and replies 0. */
  lemma DeleteTwice<V>(h: map<string, V>, fields: seq<string>)
    ensures Deleted(Deleted(h, fields), fields) == Deleted(h, fields)
    ensures DeletedCount(Deleted(h, fields), fields) == 0
  {
    DeleteAbsentIsNoop(Deleted(h, fields), fields);
  }

  /** Reading a field back returns the last value written to it: alone, it
      reads back as exactly that value, and among other fields the value is
      among those returned. */
  lemma GetAfterSet<V>(h: map<string, V>, field: string, value: V, fields: seq<string>)
    ensures Present(h[field := value], [field]) == [value]
    ensures field in fields ==> value in Present(h[field := value], fields)
  {
    assert [field][..0] == [];
    if field in fields {
      PresentIncludes(h[field := value], fields, field);
    }
  }

  lemma {:induction false} PresentIncludes<V>(h: map<string, V>, fields: seq<string>, field: string)
    requires field in fields && field in h
    ensures h[field] in Present(h, fields)
    decreases |fields|
  {
    var n := |fields| - 1;
    if fields[n] != field {
      assert field in fields[..n];
      PresentIncludes(h, fields[..n], field);
    }
  }

  /** After the named fields are deleted, reading them returns nothing. */
  lemma GetAfterDel<V>(h: map<string, V>, fields: seq<string>)
    ensures Present(Deleted(h, fields), fields) == []
  {
    PresentExact(Deleted(h, fields), fields);
  }
}
