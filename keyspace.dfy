/**
  The key space of the Redis store, keyed by collection name: a sorted set
  or a hash that becomes empty disappears together with its key, and reading
  an absent key yields an empty structure.
 */
module Keyspace {

  /** The structure stored under `key`, empty when the key is absent. */
  function Get<X, Y>(m: map<string, map<X, Y>>, key: string): map<X, Y> {
    if key in m then m[key] else map[]
  }

  /** Writes `inner` back under `key`; an empty structure removes the key. */
  function Put<X, Y>(m: map<string, map<X, Y>>, key: string, inner: map<X, Y>): (r: map<string, map<X, Y>>)
    ensures Get(r, key) == inner
    ensures key in r <==> inner != map[]
    ensures forall k :: k != key ==> (k in r <==> k in m)
    ensures forall k :: k != key && k in m ==> r[k] == m[k]
  {
    if inner == map[] then m - {key} else m[key := inner]
  }

  /** A second write to the same key replaces the first. */
  lemma PutTwice<X, Y>(m: map<string, map<X, Y>>, key: string, first: map<X, Y>, second: map<X, Y>)
    ensures Put(Put(m, key, first), key, second) == Put(m, key, second)
  {
  }

  /** No key holds an empty structure. */
  ghost predicate NoEmptyKeys<X, Y>(m: map<string, map<X, Y>>) {
    forall k :: k in m ==> m[k] != map[]
  }

  /** Writing back what was read changes nothing, unless the key holds an
      empty structure (which Redis never keeps). */
  lemma PutGetUnchanged<X, Y>(m: map<string, map<X, Y>>, key: string)
    requires key in m ==> m[key] != map[]
    ensures Put(m, key, Get(m, key)) == m
  {
  }
}
