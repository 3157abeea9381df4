/**
  The metadata timeline as plumbca/backend.py actually stores it: a Redis
  sorted set, where every distinct member appears once and `zadd` of a
  member already present moves it to the new score. Two timestamps whose
  info dicts are equal therefore cannot both be kept, whether the second
  dict is written by `set_collection_metadata` or left behind by the
  rewrite in `del_collection_metadata_by_range`. The rest of the model uses
  the timeline keyed by score (module Metadata), which is what the source
  evidently intends.
 */
module ZSetAsWritten {
  import opened Metadata

  /** member -> score */
  type ZSet = map<Dict, int>

  ghost predicate HasScore(z: ZSet, ts: int) {
    exists m :: m in z && z[m] == ts
  }

  /** `zadd(key, score, member)`: the member ends at `score`, and the set
      grows only when the member is new; a member already present is moved,
      never added twice. */
  function ZAdd(z: ZSet, score: int, member: Dict): (r: ZSet)
    ensures member in r && r[member] == score
    ensures |r| == |z| + (if member in z then 0 else 1)
  {
    z[member := score]
  }

  /** Moving the only member at score `s` elsewhere leaves no member at `s`. */
  lemma ZAddMovesMember(z: ZSet, score: int, member: Dict)
    requires member in z && z[member] != score
    requires forall m :: m in z && z[m] == z[member] ==> m == member
    ensures !HasScore(ZAdd(z, score, member), z[member])
  {
  }

  /** `zremrangebyscore(key, lo, hi)`: no member is left with a score in
      `[lo, hi]`, and every score outside it is held afterwards exactly when
      it was held before. */
  function ZRemRangeByScore(z: ZSet, lo: int, hi: int): (r: ZSet)
    ensures forall m :: m in r ==> !(lo <= r[m] <= hi)
    ensures forall s :: !(lo <= s <= hi) ==> (HasScore(r, s) <==> HasScore(z, s))
  {
    var r := map m | m in z && !(lo <= z[m] <= hi) :: z[m];
    assert forall m :: m in z && !(lo <= z[m] <= hi) ==> m in r && r[m] == z[m];
    r
  }

  /** `set_collection_metadata` over the sorted set as Redis keeps it. */
  ghost function SetMetadataAsWritten(z: ZSet, tagging: string, expts: int, ts: int, args: seq<Val>): (r: ZSet)
    ensures HasScore(r, ts)
  {
    if HasScore(z, ts) then
      var info :| info in z && z[info] == ts;
      if tagging in info then z
      else ZAdd(ZRemRangeByScore(z, ts, ts), ts, info[tagging := MakeInfo(expts, args)])
    else
      ZAdd(z, ts, map[tagging := MakeInfo(expts, args)])
  }

  /** `del_collection_metadata_by_range(coll, tagging, ts, ts)` over the
      sorted set as Redis keeps it: the member at `ts` loses `tagging` and is
      rewritten by `zremrangebyscore` and `zadd`, or removed when that was
      its only tagging. It never creates a member at `ts`. */
  ghost function DelAtAsWritten(z: ZSet, tagging: string, ts: int): (r: ZSet)
    ensures HasScore(r, ts) ==> HasScore(z, ts)
  {
    if HasScore(z, ts) then
      var info :| info in z && z[info] == ts;
      if tagging !in info then z
      else if info - {tagging} != map[] then ZAdd(ZRemRangeByScore(z, ts, ts), ts, info - {tagging})
      else ZRemRangeByScore(z, ts, ts)
    else
      z
  }

  /** Writing the same tagging and expiry at timestamps 1 and then 2 leaves
      a single member, at score 2: the entry for timestamp 1 is lost. */
  lemma EqualMembersCollide()
    ensures var z1 := SetMetadataAsWritten(map[], "t", 300, 1, []);
            var z2 := SetMetadataAsWritten(z1, "t", 300, 2, []);
            HasScore(z1, 1) && !HasScore(z2, 1) && |z2| == 1
  {
    var d := map["t" := MakeInfo(300, [])];
    var z1 := SetMetadataAsWritten(map[], "t", 300, 1, []);
    assert !HasScore(map[], 1);
    assert z1 == map[d := 1];
    assert !HasScore(z1, 2);
    var z2 := SetMetadataAsWritten(z1, "t", 300, 2, []);
    assert z2 == map[d := 2];
    assert z2.Keys == {d};
  }

  /** The same two writes on the timeline keyed by score keep both timestamps. */
  lemma KeyedByScoreKeepsBoth()
    ensures var tl := SetMetadata(SetMetadata(map[], "t", 300, 1, []), "t", 300, 2, []);
            tl.Keys == {1, 2} && tl[1] == tl[2]
  {
  }

  /** Write `a` at 2, `b` at 1, `a` at 1, then delete `b` over `[1, 1]`: the
      rewritten member at 1 equals the member at 2, so the `zadd` moves that
      member and timestamp 2 disappears. */
  lemma DelRewriteCollides()
    ensures var z1 := SetMetadataAsWritten(map[], "a", 5, 2, []);
            var z2 := SetMetadataAsWritten(z1, "b", 5, 1, []);
            var z3 := SetMetadataAsWritten(z2, "a", 5, 1, []);
            var z4 := DelAtAsWritten(z3, "b", 1);
            |z3| == 2 && HasScore(z3, 2) && !HasScore(z4, 2) && |z4| == 1
  {
    var a := map["a" := MakeInfo(5, [])];
    var b := map["b" := MakeInfo(5, [])];
    var ab := b["a" := MakeInfo(5, [])];
    assert a != b && a != ab && b != ab by {
      assert "b" !in a && "b" in ab && "a" !in b;
    }
    var z1 := SetMetadataAsWritten(map[], "a", 5, 2, []);
    assert !HasScore(map[], 2);
    assert z1 == map[a := 2];
    assert !HasScore(z1, 1);
    var z2 := SetMetadataAsWritten(z1, "b", 5, 1, []);
    assert z2 == map[a := 2, b := 1];
    assert z2[b] == 1;
    var z3 := SetMetadataAsWritten(z2, "a", 5, 1, []);
    assert ZRemRangeByScore(z2, 1, 1) == map[a := 2];
    assert z3 == map[a := 2, ab := 1];
    assert z3.Keys == {a, ab};
    assert z3[ab] == 1;
    var z4 := DelAtAsWritten(z3, "b", 1);
    assert ab - {"b"} == a;
    assert ZRemRangeByScore(z3, 1, 1) == map[a := 2];
    assert z4 == map[a := 1];
    assert z4.Keys == {a};
  }

  /** The same writes and deletion on the timeline keyed by score keep both
      timestamps. */
  lemma KeyedByScoreDelKeepsBoth()
    ensures var tl := SetMetadata(SetMetadata(SetMetadata(map[], "a", 5, 2, []), "b", 5, 1, []), "a", 5, 1, []);
            tl.Keys == {1, 2} && DelByRange(tl, "b", 1, 1).Keys == {1, 2}
  {
  }
}
