# plumbca core in Dafny

plumbca is a small cache server that groups timestamped data into named
collections. This project models its core:

- the **Redis backend** (`RedisBackend`): a hash indexing the collections by
  name; one metadata *timeline* per collection, a Redis sorted set whose score
  is a data timestamp and whose member is a dict from tagging to the
  info list `[expts] + args`; one cache hash per collection;
- the **collection registry** (`CacheCtl`): name to collection instance, with
  create-if-absent and lookup-or-`None`;
- the **search helpers** built on `bisect_left` (`find_eq`, `find_ge`,
  `find_lt`, and the older `find_ge`/`find_lt` copy).

The Redis database is modelled in memory: the fields of
`Backend.RedisBackend` are the index hash, the timelines and the cache hashes,
each keyed by collection name (module `Keyspace`: a structure that becomes
empty disappears with its key, and an absent key reads as empty). `packb` /
`unpackb` are the identity, so a timeline is a map from score to decoded
member (module `Metadata`). Each backend method is proved against a pure
function of the old state (`SetMetadata`, `DelByRange`, `Query`, `Present`,
`Deleted`, `DeletedCount`), and the properties the source promises are
lemmas about those functions.

## Model

| member | source | states |
|---|---|---|
| Helpers.BisectLeftBetween | plumbca/helpers.py:19 | binary search over `[lo, hi)`: the result lies in the bounds, everything left of it is `< x`, the element at it is `>= x`, for any list |
| Helpers.BisectLeft | plumbca/helpers.py:19 | the insertion point; on a sorted list every element before it is `< x` and every one from it on is `>= x` |
| Helpers.FindEq | plumbca/helpers.py:17-22 | success returns an index holding `x` (or `x` itself, which occurs in the list); failure is always `ValueError` |
| Helpers.FindGe | plumbca/helpers.py:25-31 | success returns an index/item `>= x`; failure is `IndexError` exactly for the empty list (the message indexes `a[-1]`), `ValueError` otherwise |
| Helpers.FindLt | plumbca/helpers.py:34-40 | success returns an index/item `< x`; failure is `IndexError` exactly for the empty list (the message indexes `a[0]`), `ValueError` otherwise |
| Helpers.FindEqLeftmost | plumbca/helpers.py:17-22 | on a sorted list `find_eq` succeeds iff `x` occurs, at its first occurrence |
| Helpers.FindGeLeftmost | plumbca/helpers.py:25-31 | on a sorted list `find_ge` fails iff every element is `< x`, else returns the first index holding an element `>= x` |
| Helpers.FindLtRightmost | plumbca/helpers.py:34-40 | on a sorted list `find_lt` fails iff no element is `< x` (`ValueError` when `x <= a[0]`), else returns the last index holding an element `< x` |
| Helpers.FindLtBeforeFindGe | plumbca/helpers.py:25-40 | when both succeed, `find_lt`'s index is one less than `find_ge`'s |
| Helpers.ItemIsAtReturnedIndex | plumbca/helpers.py:17-40 | `ret_index=False` returns the item at the index `ret_index=True` returns; both fail together with the same error |
| Helper.FindGe | plumbca/helper.py:10-16 | success returns an item `>= x` of the list; `IndexError` exactly for the empty list |
| Helper.FindLt | plumbca/helper.py:19-25 | success returns an item `< x` of the list; `IndexError` exactly for the empty list |
| Helper.FindGeIsLeastAbove | plumbca/helper.py:10-16 | on a sorted list returns the least element `>= x`, and fails iff every element is `< x` |
| Helper.FindLtIsGreatestBelow | plumbca/helper.py:19-25 | on a sorted list returns the greatest element `< x`, and fails iff no element is `< x` |
| Helper.AgreesWithHelpers | plumbca/helper.py:10-25 | the older helpers return exactly what the newer ones return with `ret_index=False` |
| Keyspace.Put | plumbca/backend.py:135-143 | writing a structure back under a key: reads back as written, the key exists iff the structure is non-empty, other keys unchanged |
| Keyspace.PutTwice | plumbca/backend.py:133-143 | a second write to a key replaces the first |
| Keyspace.PutGetUnchanged | plumbca/backend.py:111-114 | writing back what was read changes nothing unless the key holds an empty structure, which Redis never keeps |
| Metadata.SetMetadata | plumbca/backend.py:70-101 | timestamps become old ones plus `ts`; the first writer of `(ts, tagging)` wins; the member at `ts` gains exactly `tagging`, with `[expts] + args`; other taggings and timestamps unchanged; no empty member appears |
| Metadata.SecondWriteChangesNothing | plumbca/backend.py:85-89 | a second write of the same `(ts, tagging)`, with any expiry and arguments, changes nothing |
| Metadata.WritesKeepEveryTimestamp | plumbca/backend.py:70-101 | after any sequence of writes the timestamps are the old ones plus every timestamp written |
| Metadata.SizeIsDistinctTimestamps | plumbca/backend.py:58 | writes into an empty timeline give a sorted set whose size is the number of distinct timestamps |
| Metadata.RangeByScore | plumbca/backend.py:82 | `zrangebyscore(start, end)`: exactly the scores in `[start, end]`, strictly ascending |
| Metadata.DelByRange | plumbca/backend.py:107-143 | only members in range carrying the tagging change: they lose it, and are removed iff it was their only tagging; no member in range keeps the tagging |
| Metadata.RemoveEmptiesIff | plumbca/backend.py:124-130 | popping a tagging empties a member iff it was the only one |
| Metadata.DelKeepsWellFormed | plumbca/backend.py:127-130 | the deletion never leaves an empty member |
| Metadata.DelWithoutHitIsNoop | plumbca/backend.py:113-123 | an empty range, or one where no member carries the tagging, leaves the timeline unchanged |
| Metadata.MatchesOfExact | plumbca/backend.py:196-197 | the matches are exactly `(ts, info[tagging])` for listed scores carrying the tagging, ascending, and empty when none does |
| Metadata.QueryByTagging | plumbca/backend.py:154-199 | an ordinary tagging query is `None` iff no member is in range; else exactly the `(ts, info)` pairs of members in range carrying the tagging, ascending; `[]` when none does |
| Metadata.QueryWholeMembers | plumbca/backend.py:180-195 | `__taggings__` maps each timestamp in range to its taggings, `__all__` to its whole member; both `None` on an empty range |
| Metadata.QueryWidening | plumbca/backend.py:179-199 | every pair returned for a range is returned for any enclosing range |
| Metadata.QueryAfterSet | plumbca/backend.py:70-101 | after a write, a query covering its timestamp returns the first writer's info there |
| Metadata.QueryAfterDel | plumbca/backend.py:107-143 | after deleting a tagging over a range, querying it over that range finds nothing |
| CacheHash.Present | plumbca/backend.py:214-217 | `hmget` with missing fields dropped: never more values than fields |
| CacheHash.PresentExact | plumbca/backend.py:214-217 | each value belongs to a named present field; with every field present the i-th value is the i-th field's; with none present the result is `[]` |
| CacheHash.DeletedCount | plumbca/backend.py:219-221 | the reply of `hdel` is how many fields the hash lost, and 0 exactly when the hash is unchanged |
| CacheHash.DeleteAbsentIsNoop | plumbca/backend.py:219-221 | `hdel` of fields none of which is present changes nothing and replies 0 |
| CacheHash.DeleteTwice | plumbca/backend.py:219-221 | a second `hdel` of the same fields changes nothing and replies 0 |
| CacheHash.GetAfterSet | plumbca/backend.py:201-217 | a field written and read alone returns exactly `[value]`; read among other fields the value is among those returned |
| CacheHash.GetAfterDel | plumbca/backend.py:205-221 | deleted fields read back as nothing |
| Backend.CollectDeletions | plumbca/backend.py:116-130 | the rewrite list holds exactly the hit members that keep another tagging, each without the tagging; the drop list exactly the hit scores whose only tagging it was |
| Backend.RewriteThenRemove | plumbca/backend.py:132-143 | rewriting those members and then dropping those scores is the range deletion |
| Backend.RedisBackend.constructor | plumbca/backend.py:24-27 | a backend on a database holding no plumbca key |
| Backend.RedisBackend.SetCollectionIndex | plumbca/backend.py:29-34 | records the class name under the collection name, nothing else changes |
| Backend.RedisBackend.GetCollectionIndex | plumbca/backend.py:36-41 | `[name, class name]` iff the name is indexed, else `None` |
| Backend.RedisBackend.GetCollectionIndexes | plumbca/backend.py:43-50 | the whole index, `None` iff it is empty |
| Backend.RedisBackend.GetCollectionLength | plumbca/backend.py:52-68 | the number of timestamps, then the cache size iff the effective class (`klass`, or the collection's class when empty) is `IncreaseCollection` |
| Backend.RedisBackend.SetCollectionMetadata | plumbca/backend.py:70-101 | the collection's timeline becomes `SetMetadata` of the old one; other state unchanged; invariant kept |
| Backend.RedisBackend.DelCollectionMetadataByRange | plumbca/backend.py:107-143 | the collection's timeline becomes `DelByRange` of the old one, the key vanishing when it empties; other state unchanged |
| Backend.RedisBackend.RewriteMembers | plumbca/backend.py:132-137 | each listed member is replaced by its version without the tagging |
| Backend.RedisBackend.DropScores | plumbca/backend.py:139-143 | the listed scores are removed, the key vanishing with its last member |
| Backend.RedisBackend.QueryCollectionMetadataIn | plumbca/backend.py:154-199 | returns `Query` of the collection's timeline (see `QueryByTagging`, `QueryWholeMembers`) |
| Backend.RedisBackend.QueryCollectionMetadata | plumbca/backend.py:145-146 | the query for the given tagging |
| Backend.RedisBackend.QueryCollectionMetadataTagging | plumbca/backend.py:148-149 | the `__taggings__` query |
| Backend.RedisBackend.QueryCollectionMetadataAll | plumbca/backend.py:151-152 | the `__all__` query |
| Backend.RedisBackend.IncCollCacheSet | plumbca/backend.py:201-203 | the collection's cache hash maps the field to the value; nothing else changes |
| Backend.RedisBackend.IncCollCachesGet | plumbca/backend.py:205-217 | `[]` for no field, else `Present` of the cache hash |
| Backend.RedisBackend.IncCollCachesDel | plumbca/backend.py:219-221 | no field is a Redis argument error and changes nothing; else the hash becomes `Deleted` and the reply is `DeletedCount` |
| Backend.RedisBackend.IncCollKeysDelete | plumbca/backend.py:223-233 | the whole timeline is deleted iff any tagging is given; the cache hash is always deleted |
| Cache.Ensured | plumbca/cache.py:70-77 | an existing name is kept whatever the type; a new name gets a fresh instance of its type, or fails iff the type is not `IncreaseCollection`; other entries unchanged |
| Cache.EnsureAllRegistersEachNameOnce | plumbca/cache.py:70-77 | ensuring any sequence of names, repeats included, registers each distinct name once and keeps existing entries |
| Cache.CacheCtl.constructor | plumbca/cache.py:26-30 | `CacheCtl(try_restore=False)` starts with an empty registry |
| Cache.CacheCtl.GetCollection | plumbca/cache.py:63-68 | the instance iff the name is registered, else `None` |
| Cache.CacheCtl.EnsureCollection | plumbca/cache.py:70-77 | the registry becomes `Ensured` of the old one, unchanged on failure |
| ZSetAsWritten.ZAdd | plumbca/backend.py:94 | the member ends at the score, and the set grows by one only for a new member: a present member is moved, never held twice |
| ZSetAsWritten.ZAddMovesMember | plumbca/backend.py:94 | moving the only member at a score to another score leaves that score empty |
| ZSetAsWritten.ZRemRangeByScore | plumbca/backend.py:93 | no member is left with a score in the range; every score outside it is held afterwards iff it was before |
| ZSetAsWritten.SetMetadataAsWritten | plumbca/backend.py:80-101 | the write over the sorted set as Redis keeps it: a member sits at `ts` afterwards |
| ZSetAsWritten.EqualMembersCollide | plumbca/backend.py:99-101 | two writes of equal info at timestamps 1 and 2 leave one member, at 2 |
| ZSetAsWritten.KeyedByScoreKeepsBoth | plumbca/backend.py:99-101 | the same two writes on the score-keyed timeline keep both timestamps |
| ZSetAsWritten.DelAtAsWritten | plumbca/backend.py:107-143 | the deletion over `[ts, ts]` on the sorted set as Redis keeps it, rewriting by `zremrangebyscore` and `zadd`: it never creates a member at `ts` |
| ZSetAsWritten.DelRewriteCollides | plumbca/backend.py:133-137 | writes `a`@2, `b`@1, `a`@1, then deleting `b` over `[1, 1]`: the rewritten member equals the one at 2, and timestamp 2 disappears |
| ZSetAsWritten.KeyedByScoreDelKeepsBoth | plumbca/backend.py:107-143 | the same writes and deletion on the score-keyed timeline keep both timestamps |

## Left out

- Worker, server, message protocol, configuration and the collection classes
  themselves: outside the core; a collection is known here by its class name
  and name only.
- `restore_collections` and `dump_collections` (filesystem I/O); the registry
  is built with `try_restore=False`, and the module-level `CacheCtl()` that
  restores at import is not modelled. The logging calls are left out.
- `ensure_collection`'s `**kwargs` are passed to the collection constructor
  and have no effect on the registry; they are not modelled.
- The `StrictRedis` connection, key formats, `mark_version` and the
  module-level `_backends` table: a key is the collection name.
- Pipelines are modelled as sequential updates: their atomicity and any
  concurrent client are not modelled.
- msgpack encoding: `packb`/`unpackb` are the identity, so byte strings versus
  text and msgpack type conversions are not modelled; the `__taggings__`
  view is a set of taggings, not a list in dict order.
- Redis scores are integers here; float scores and `-inf`/`+inf` bounds are
  not modelled.
- Helpers.FindEq, Helpers.FindGe, Helpers.FindLt, Helper.FindGe, Helper.FindLt:
  elements are integers compared with `<`; the lists of `[ts, ...]` compared
  lexicographically, as in the helper tests, are not modelled.
- Backend.RedisBackend.SetCollectionMetadata: the model keys the timeline by
  score, one member per timestamp, which is the intended behaviour; the
  member collision of the real sorted set is modelled separately in
  `ZSetAsWritten` (see Findings).
- Metadata.DelByRange: keeps every timestamp outside the tagging's hits;
  as written, the rewrite `zadd` can move an equal member away from another
  timestamp, which `ZSetAsWritten.DelRewriteCollides` shows (see Findings).
- Backend.RedisBackend.DelCollectionMetadataByRange: proved equal to
  `Metadata.DelByRange`, so it does not capture the rewrite collision either.
- Backend.RedisBackend.RewriteMembers: replaces the member at each listed
  score; the real `zadd` would instead move an equal member held at another
  score.
- `CacheCtl.info`: `__init__` sets an instance attribute `info = {}` that
  nothing reads, and it hides the class's no-op `info` method on every
  instance; neither is modelled.

## Findings

| source | as written | input that shows it | evidently intended | confidence | as-written member | corrected member |
|---|---|---|---|---|---|---|
| plumbca/backend.py:94-101 | the timeline is a Redis sorted set whose member is the packed info dict; `zadd` of a member already present at another score moves it | `set_collection_metadata(coll, "t", 300, 1)` then `set_collection_metadata(coll, "t", 300, 2)`: both pack `{"t": [300]}`, so only the entry at timestamp 2 remains | one entry per timestamp written, as `get_collection_length` counts | not executed | ZSetAsWritten.EqualMembersCollide | Metadata.WritesKeepEveryTimestamp |
| plumbca/backend.py:133-137 | the deletion rewrites a member with `zremrangebyscore(ts, ts)` then `zadd(ts, info)`; if an equal info dict is held at another score, `zadd` moves it | write `a` at 2, `b` at 1, `a` at 1, then `del_collection_metadata_by_range(coll, "b", 1, 1)`: the member `{"a": [5]}` moves from 2 to 1 and timestamp 2 is lost | only the tagging is removed and other timestamps keep their info | not executed | ZSetAsWritten.DelRewriteCollides | Metadata.DelByRange |
