/**
  `RedisBackend` of plumbca/backend.py over an in-memory model of its Redis
  database: the collection-name index hash, one metadata timeline (sorted
  set) per collection and one cache hash per collection. Each method is one
  sequential step; the Redis commands it issues become updates of the fields.
 */
module Backend {
  import opened Results
  import opened Keyspace
  import opened Metadata
  import opened CacheHash
  import opened Seqs

  /** The class whose collections also report the size of their cache hash. */
  const IncreaseCollection: string := "IncreaseCollection"

  /** Redis refuses `HDEL key` with no field. */
  datatype RedisError = WrongNumberOfArguments

  /** The scores whose member a list of rewrites replaces. */
  function RewrittenScores(todos: seq<(Dict, int)>): set<int> {
    set p | p in todos :: p.1
  }

  /** `tl` with `tagging` removed from the members at the given scores. */
  ghost function Rewritten(tl: Timeline, tagging: string, scores: set<int>): Timeline {
    map ts | ts in tl :: if ts in scores then tl[ts] - {tagging} else tl[ts]
  }

  lemma RewriteOneMore(tl: Timeline, tagging: string, scores: set<int>, ts: int)
    requires ts in tl
    ensures Rewritten(tl, tagging, scores + {ts}) == Rewritten(tl, tagging, scores)[ts := tl[ts] - {tagging}]
  {
    var lhs := Rewritten(tl, tagging, scores + {ts});
    var rhs := Rewritten(tl, tagging, scores)[ts := tl[ts] - {tagging}];
    assert lhs.Keys == rhs.Keys;
  }

  /** Rewriting the members that keep other taggings and then removing the
      scores whose member held only `tagging` is the range deletion. */
  lemma RewriteThenRemove(tl: Timeline, tagging: string, start: int, end: int, rewritten: set<int>, removed: set<int>)
    requires forall ts :: ts in rewritten <==> Hit(tl, tagging, start, end, ts) && tl[ts].Keys != {tagging}
    requires forall ts :: ts in removed <==> Hit(tl, tagging, start, end, ts) && tl[ts].Keys == {tagging}
    ensures Rewritten(tl, tagging, rewritten) - removed == DelByRange(tl, tagging, start, end)
  {
    var lhs := Rewritten(tl, tagging, rewritten) - removed;
    var rhs := DelByRange(tl, tagging, start, end);
    assert lhs.Keys == rhs.Keys;
    forall ts | ts in lhs ensures lhs[ts] == rhs[ts] {
    }
  }

  lemma TaggingsFromScores(tl: Timeline, start: int, end: int, scores: seq<int>, taggings: map<int, set<string>>)
    requires forall ts :: ts in scores <==> ts in tl && start <= ts <= end
    requires forall ts :: ts in taggings <==> ts in scores
    requires forall ts :: ts in taggings ==> taggings[ts] == tl[ts].Keys
    ensures taggings == TaggingsOf(Window(tl, start, end))
  {
    var w := TaggingsOf(Window(tl, start, end));
    forall ts ensures ts in taggings <==> ts in w {
      assert ts in taggings <==> ts in scores;
    }
    assert taggings.Keys == w.Keys;
  }

  lemma InfosFromScores(tl: Timeline, start: int, end: int, scores: seq<int>, infos: map<int, Dict>)
    requires forall ts :: ts in scores <==> ts in tl && start <= ts <= end
    requires forall ts :: ts in infos <==> ts in scores
    requires forall ts :: ts in infos ==> infos[ts] == tl[ts]
    ensures infos == Window(tl, start, end)
  {
    var w := Window(tl, start, end);
    forall ts ensures ts in infos <==> ts in w {
      assert ts in infos <==> ts in scores;
    }
    assert infos.Keys == w.Keys;
  }

  /** The first loop of `del_collection_metadata_by_range`: for each score
      in range whose member carries `tagging`, the member without it goes to
      the rewrite list when other taggings remain, and the score goes to the
      drop list otherwise. */
  method CollectDeletions(tl: Timeline, tagging: string, start: int, end: int, elements: seq<int>)
    returns (delInfoTodos: seq<(Dict, int)>, delKeyTodos: seq<int>)
    requires forall ts :: ts in elements <==> ts in tl && start <= ts <= end
    ensures forall p :: p in delInfoTodos ==> p.1 in tl && p.0 == tl[p.1] - {tagging}
    ensures forall ts :: ts in RewrittenScores(delInfoTodos) <==>
              Hit(tl, tagging, start, end, ts) && tl[ts].Keys != {tagging}
    ensures forall ts :: ts in Elements(delKeyTodos) <==>
              Hit(tl, tagging, start, end, ts) && tl[ts].Keys == {tagging}
  {
    delInfoTodos, delKeyTodos := [], [];
    var k := 0;
    while k < |elements|
      invariant 0 <= k <= |elements|
      invariant forall p :: p in delInfoTodos ==> p.1 in tl && p.0 == tl[p.1] - {tagging}
      invariant forall ts :: ts in RewrittenScores(delInfoTodos) <==>
                  ts in elements[..k] && Hit(tl, tagging, start, end, ts) && tl[ts].Keys != {tagging}
      invariant forall ts :: ts in Elements(delKeyTodos) <==>
                  ts in elements[..k] && Hit(tl, tagging, start, end, ts) && tl[ts].Keys == {tagging}
    {
      var ts := elements[k];
      assert elements[..k + 1] == elements[..k] + [ts];
      var info := tl[ts];
      if tagging in info {
        RemoveEmptiesIff(info, tagging);
        info := info - {tagging};
        if info != map[] {
          assert RewrittenScores(delInfoTodos + [(info, ts)]) == RewrittenScores(delInfoTodos) + {ts};
          delInfoTodos := delInfoTodos + [(info, ts)];
        } else {
          assert Elements(delKeyTodos + [ts]) == Elements(delKeyTodos) + {ts};
          delKeyTodos := delKeyTodos + [ts];
        }
      }
      k := k + 1;
    }
    assert elements[..k] == elements;
  }

  class RedisBackend<V> {
    /** The collections index hash: collection name -> class name. */
    var index: map<string, string>
    /** The metadata timeline of each collection. */
    var timelines: map<string, Timeline>
    /** The cache hash of each collection: field -> value. */
    var caches: map<string, map<string, V>>

    ghost predicate Valid()
      reads this
    {
      && NoEmptyKeys(timelines)
      && NoEmptyKeys(caches)
      && forall c :: c in timelines ==> WellFormed(timelines[c])
    }

    /** A backend on a database that holds no plumbca key yet. */
    constructor ()
      ensures Valid()
      ensures index == map[] && timelines == map[] && caches == map[]
    {
      index, timelines, caches := map[], map[], map[];
    }

    // ------------------------------------------------------------------
    // collection index
    // ------------------------------------------------------------------

    /** `set_collection_index(name, instance)`: record the class name. */
    method SetCollectionIndex(name: string, className: string)
      requires Valid()
      modifies this
      ensures Valid()
      ensures index == old(index)[name := className]
      ensures timelines == old(timelines) && caches == old(caches)
    {
      index := index[name := className];
    }

    /** `get_collection_index(name)`: `[name, class name]`, or `None`. */
    method GetCollectionIndex(name: string) returns (r: Option<(string, string)>)
      ensures r.Some? <==> name in index
      ensures r.Some? ==> r.value.0 == name && r.value.1 == index[name]
    {
      if name in index {
        r := Some((name, index[name]));
      } else {
        r := None;
      }
    }

    /** `get_collection_indexes()`: the whole index, or `None` when empty. */
    method GetCollectionIndexes() returns (r: Option<map<string, string>>)
      ensures r.None? <==> index == map[]
      ensures r.Some? ==> r.value == index
    {
      if index != map[] {
        r := Some(index);
      } else {
        r := None;
      }
    }

    // ------------------------------------------------------------------
    // size reporting
    // ------------------------------------------------------------------

    /** `get_collection_length(coll, klass)`: the number of timestamps in the
        timeline, followed, for an `IncreaseCollection`, by the number of
        fields in the cache hash. An empty `klass` means the class of `coll`. */
    method GetCollectionLength(coll: string, collClass: string, klass: string) returns (rv: seq<nat>)
      ensures var effective := if klass == "" then collClass else klass;
              |rv| == (if effective == IncreaseCollection then 2 else 1)
      ensures rv[0] == |Get(timelines, coll)|
      ensures |rv| == 2 ==> rv[1] == |Get(caches, coll)|
    {
      var effective := klass;
      if effective == "" {
        effective := collClass;
      }
      rv := [|Get(timelines, coll)|];
      if effective == IncreaseCollection {
        rv := rv + [|Get(caches, coll)|];
      }
    }

    // ------------------------------------------------------------------
    // metadata timeline
    // ------------------------------------------------------------------

    /** `set_collection_metadata(coll, tagging, expts, ts, *args)`. */
    method SetCollectionMetadata(coll: string, tagging: string, expts: int, ts: int, args: seq<Val>)
      requires Valid()
      modifies this
      ensures Valid()
      ensures timelines == old(timelines)[coll := SetMetadata(old(Get(timelines, coll)), tagging, expts, ts, args)]
      ensures index == old(index) && caches == old(caches)
    {
      var tl := Get(timelines, coll);
      var element := RangeByScore(tl, ts, ts);
      if element != [] {
        assert element[0] in element;
        var info := tl[element[0]];
        if tagging in info {
          return;
        }
        info := info[tagging := MakeInfo(expts, args)];
        // zremrangebyscore(ts, ts) and zadd(ts, info) in one pipeline
        timelines := timelines[coll := tl[ts := info]];
      } else {
        assert tl[ts := map[tagging := MakeInfo(expts, args)]] == SetMetadata(tl, tagging, expts, ts, args);
        timelines := timelines[coll := tl[ts := map[tagging := MakeInfo(expts, args)]]];
      }
    }

    /** `del_collection_metadata_by_range(coll, tagging, start, end)`: collect
        the members to rewrite and the scores to drop, then rewrite each
        member and drop the scores. */
    method DelCollectionMetadataByRange(coll: string, tagging: string, start: int, end: int)
      requires Valid()
      modifies this
      ensures Valid()
      ensures timelines == Put(old(timelines), coll, DelByRange(old(Get(timelines, coll)), tagging, start, end))
      ensures index == old(index) && caches == old(caches)
    {
      var tl := Get(timelines, coll);
      var elements := RangeByScore(tl, start, end);
      if elements == [] {
        DelWithoutHitIsNoop(tl, tagging, start, end);
        PutGetUnchanged(timelines, coll);
        return;
      }
      var delInfoTodos, delKeyTodos := CollectDeletions(tl, tagging, start, end, elements);
      RewriteMembers(coll, tl, tagging, delInfoTodos);
      DropScores(coll, delKeyTodos);
      PutTwice(old(timelines), coll, Rewritten(tl, tagging, RewrittenScores(delInfoTodos)),
               Rewritten(tl, tagging, RewrittenScores(delInfoTodos)) - Elements(delKeyTodos));
      RewriteThenRemove(tl, tagging, start, end, RewrittenScores(delInfoTodos), Elements(delKeyTodos));
      DelKeepsWellFormed(tl, tagging, start, end);
    }

    /** The first pipeline of the deletion, once per rewritten member:
        `zremrangebyscore(ts, ts)` then `zadd(ts, info)`. */
    method RewriteMembers(coll: string, tl: Timeline, tagging: string, todos: seq<(Dict, int)>)
      requires coll in timelines && timelines[coll] == tl
      requires forall p :: p in todos ==> p.1 in tl && p.0 == tl[p.1] - {tagging}
      modifies this
      ensures timelines == old(timelines)[coll := Rewritten(tl, tagging, RewrittenScores(todos))]
      ensures index == old(index) && caches == old(caches)
    {
      assert Rewritten(tl, tagging, RewrittenScores(todos[..0])) == tl;
      var n := 0;
      while n < |todos|
        invariant 0 <= n <= |todos|
        invariant timelines == old(timelines)[coll := Rewritten(tl, tagging, RewrittenScores(todos[..n]))]
        invariant index == old(index) && caches == old(caches)
      {
        var (info, ts) := todos[n];
        assert todos[n] in todos;
        assert RewrittenScores(todos[..n + 1]) == RewrittenScores(todos[..n]) + {ts} by {
          assert todos[..n + 1] == todos[..n] + [(info, ts)];
        }
        RewriteOneMore(tl, tagging, RewrittenScores(todos[..n]), ts);
        timelines := timelines[coll := timelines[coll][ts := info]];
        n := n + 1;
      }
      assert todos[..n] == todos;
    }

    /** The second pipeline of the deletion: `zremrangebyscore(ts, ts)` for
        every score whose member lost its last tagging; Redis drops the key
        together with its last member. */
    method DropScores(coll: string, scores: seq<int>)
      requires coll in timelines ==> timelines[coll] != map[]
      modifies this
      ensures timelines == Put(old(timelines), coll, old(Get(timelines, coll)) - Elements(scores))
      ensures index == old(index) && caches == old(caches)
    {
      ghost var tl := Get(timelines, coll);
      assert tl - Elements(scores[..0]) == tl;
      PutGetUnchanged(timelines, coll);
      var m := 0;
      while m < |scores|
        invariant 0 <= m <= |scores|
        invariant timelines == Put(old(timelines), coll, tl - Elements(scores[..m]))
        invariant index == old(index) && caches == old(caches)
      {
        var ts := scores[m];
        assert Elements(scores[..m + 1]) == Elements(scores[..m]) + {ts} by {
          assert scores[..m + 1] == scores[..m] + [ts];
        }
        assert (tl - Elements(scores[..m])) - {ts} == tl - Elements(scores[..m + 1]);
        PutTwice(old(timelines), coll, Get(timelines, coll), Get(timelines, coll) - {ts});
        timelines := Put(timelines, coll, Get(timelines, coll) - {ts});
        m := m + 1;
      }
      assert scores[..m] == scores;
    }

    /** `_query_collection_metadata(coll, start, end, tagging)`. */
    method QueryCollectionMetadataIn(coll: string, start: int, end: int, tagging: string) returns (r: QueryResult)
      ensures r == Query(Get(timelines, coll), start, end, tagging)
    {
      var tl := Get(timelines, coll);
      var elements := RangeByScore(tl, start, end);
      if elements == [] {
        return NoElements;
      }
      var taggings: map<int, set<string>> := map[];
      var infos: map<int, Dict> := map[];
      var items: seq<(int, Info)> := [];
      var k := 0;
      while k < |elements|
        invariant 0 <= k <= |elements|
        invariant tagging == TaggingsView ==>
                    (forall ts :: ts in taggings <==> ts in elements[..k]) &&
                    (forall ts :: ts in taggings ==> taggings[ts] == tl[ts].Keys)
        invariant tagging == AllView ==>
                    (forall ts :: ts in infos <==> ts in elements[..k]) &&
                    (forall ts :: ts in infos ==> infos[ts] == tl[ts])
        invariant tagging != TaggingsView && tagging != AllView ==> items == MatchesOf(tl, tagging, elements[..k])
      {
        var ts := elements[k];
        assert elements[..k + 1] == elements[..k] + [ts];
        assert elements[..k + 1][..k] == elements[..k];
        var info := tl[ts];
        if tagging == TaggingsView {
          taggings := taggings[ts := info.Keys];
        } else if tagging == AllView {
          infos := infos[ts := info];
        } else if tagging in info {
          items := items + [(ts, info[tagging])];
        }
        k := k + 1;
      }
      assert elements[..k] == elements;
      if tagging == TaggingsView {
        TaggingsFromScores(tl, start, end, elements, taggings);
        r := Taggings(taggings);
      } else if tagging == AllView {
        InfosFromScores(tl, start, end, elements, infos);
        r := Everything(infos);
      } else {
        r := Matches(items);
      }
    }

    /** `query_collection_metadata(coll, tagging, start, end)`. */
    method QueryCollectionMetadata(coll: string, tagging: string, start: int, end: int) returns (r: QueryResult)
      ensures r == Query(Get(timelines, coll), start, end, tagging)
    {
      r := QueryCollectionMetadataIn(coll, start, end, tagging);
    }

    /** `query_collection_metadata_tagging(coll, start, end)`. */
    method QueryCollectionMetadataTagging(coll: string, start: int, end: int) returns (r: QueryResult)
      ensures r == Query(Get(timelines, coll), start, end, TaggingsView)
    {
      r := QueryCollectionMetadataIn(coll, start, end, TaggingsView);
    }

    /** `query_collection_metadata_all(coll, start, end)`. */
    method QueryCollectionMetadataAll(coll: string, start: int, end: int) returns (r: QueryResult)
      ensures r == Query(Get(timelines, coll), start, end, AllView)
    {
      r := QueryCollectionMetadataIn(coll, start, end, AllView);
    }

    // ------------------------------------------------------------------
    // cache hash
    // ------------------------------------------------------------------

    /** `inc_coll_cache_set(coll, field, value)`. */
    method IncCollCacheSet(coll: string, field: string, value: V)
      requires Valid()
      modifies this
      ensures Valid()
      ensures caches == old(caches)[coll := old(Get(caches, coll))[field := value]]
      ensures index == old(index) && timelines == old(timelines)
    {
      assert field in Get(caches, coll)[field := value];
      caches := caches[coll := Get(caches, coll)[field := value]];
    }

    /** `inc_coll_caches_get(coll, *fields)`: `[]` for no field, otherwise the
        values of the present fields, in the order named. */
    method IncCollCachesGet(coll: string, fields: seq<string>) returns (rv: seq<V>)
      ensures rv == Present(Get(caches, coll), fields)
    {
      if fields == [] {
        return [];
      }
      var h := Get(caches, coll);
      // hmget: one reply per field, nil for a missing one
      var replies := seq(|fields|, i requires 0 <= i < |fields| =>
                           if fields[i] in h then Some(h[fields[i]]) else None);
      rv := [];
      for i := 0 to |replies|
        invariant rv == Present(h, fields[..i])
      {
        assert fields[..i + 1][..i] == fields[..i];
        if replies[i].Some? {
          rv := rv + [replies[i].value];
        }
      }
      assert fields[..|replies|] == fields;
    }

    /** `inc_coll_caches_del(coll, *fields)`: remove the named fields and
        return how many were present. */
    method IncCollCachesDel(coll: string, fields: seq<string>) returns (r: Result<nat, RedisError>)
      requires Valid()
      modifies this
      ensures Valid()
      ensures fields == [] ==> r == Err(WrongNumberOfArguments) && caches == old(caches)
      ensures fields != [] ==>
                r == Ok(DeletedCount(old(Get(caches, coll)), fields)) &&
                caches == Put(old(caches), coll, Deleted(old(Get(caches, coll)), fields))
      ensures index == old(index) && timelines == old(timelines)
    {
      if fields == [] {
        return Err(WrongNumberOfArguments);
      }
      var h := Get(caches, coll);
      r := Ok(DeletedCount(h, fields));
      caches := Put(caches, coll, Deleted(h, fields));
    }

    /** `inc_coll_keys_delete(coll, taggings)`: the metadata key is built
        from the collection name alone, so any tagging deletes the whole
        timeline; the cache hash is deleted in every case. */
    method IncCollKeysDelete(coll: string, taggings: seq<string>)
      requires Valid()
      modifies this
      ensures Valid()
      ensures timelines == if taggings == [] then old(timelines) else old(timelines) - {coll}
      ensures caches == old(caches) - {coll}
      ensures index == old(index)
    {
      for i := 0 to |taggings|
        invariant timelines == if i == 0 then old(timelines) else old(timelines) - {coll}
        invariant caches == old(caches) && index == old(index)
      {
        timelines := timelines - {coll};
      }
      caches := caches - {coll};
    }
  }
}
