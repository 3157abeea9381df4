/**
  The metadata timeline of one collection, as plumbca/backend.py keeps it in
  a Redis sorted set: the score is the data timestamp `ts`, and the member
  stored at a score is a dict from tagging to that tagging's info list
  `[expts] + args`. Encoding is the identity, so a timeline is a map from
  score to decoded member; keying it by score keeps at most one member per
  `ts`, the invariant the remove-then-add rewrites of the source maintain.
 */
module Metadata {

  /** An item of an info list: the expiry timestamp or an extra argument. */
  datatype Val = Int(i: int) | Str(s: string)

  /** `[expts] + args` of one tagging at one timestamp. */
  type Info = seq<Val>

  /** The member stored at one score: tagging -> info. */
  type Dict = map<string, Info>

  /** The sorted set: score (`ts`) -> member. */
  type Timeline = map<int, Dict>

  /** The two tagging names that select a whole-member view in a query. */
  const TaggingsView: string := "__taggings__"
  const AllView: string := "__all__"

  function MakeInfo(expts: int, args: seq<Val>): Info {
    [Int(expts)] + args
  }

  /** Every member of the timeline holds at least one tagging. */
  ghost predicate WellFormed(tl: Timeline) {
    forall ts :: ts in tl ==> tl[ts] != map[]
  }

  predicate Ascending(s: seq<int>) {
    forall i, j :: 0 <= i < j < |s| ==> s[i] < s[j]
  }

  // ---------------------------------------------------------------------
  // set_collection_metadata
  // ---------------------------------------------------------------------

  /** `set_collection_metadata(coll, tagging, expts, ts, *args)`: the first
      writer of `(ts, tagging)` fixes its info; a later write for the same
      pair changes nothing, and every other tagging and timestamp keeps its info. */
  function SetMetadata(tl: Timeline, tagging: string, expts: int, ts: int, args: seq<Val>): (r: Timeline)
    ensures r.Keys == tl.Keys + {ts}
    ensures ts in tl && tagging in tl[ts] ==> r == tl
    ensures r[ts].Keys == (if ts in tl then tl[ts].Keys else {}) + {tagging}
    ensures !(ts in tl && tagging in tl[ts]) ==> r[ts][tagging] == MakeInfo(expts, args)
    ensures forall g :: ts in tl && g in tl[ts] ==> r[ts][g] == tl[ts][g]
    ensures forall t :: t in tl && t != ts ==> r[t] == tl[t]
    ensures WellFormed(tl) ==> WellFormed(r)
  {
    if ts in tl then
      var info := tl[ts];
      if tagging in info then tl
      else tl[ts := info[tagging := MakeInfo(expts, args)]]
    else
      tl[ts := map[tagging := MakeInfo(expts, args)]]
  }

  /** A second write to the same `(ts, tagging)`, whatever its `expts` and
      arguments, leaves the first writer's info in place. */
  lemma SecondWriteChangesNothing(tl: Timeline, tagging: string, ts: int,
                                  expts1: int, args1: seq<Val>, expts2: int, args2: seq<Val>)
    ensures var once := SetMetadata(tl, tagging, expts1, ts, args1);
            SetMetadata(once, tagging, expts2, ts, args2) == once
  {
  }

  /** One call of `set_collection_metadata`. */
  datatype Write = Write(tagging: string, expts: int, ts: int, args: seq<Val>)

  function ApplyWrites(tl: Timeline, ws: seq<Write>): Timeline
    decreases |ws|
  {
    if ws == [] then tl
    else ApplyWrites(SetMetadata(tl, ws[0].tagging, ws[0].expts, ws[0].ts, ws[0].args), ws[1..])
  }

  function Timestamps(ws: seq<Write>): set<int> {
    set w | w in ws :: w.ts
  }

  /** Any sequence of writes, for any number of taggings, leaves exactly one
      member per distinct timestamp written: storing N distinct timestamps
      into an empty timeline gives a sorted set of size N. */
  lemma {:induction false} WritesKeepEveryTimestamp(tl: Timeline, ws: seq<Write>)
    ensures ApplyWrites(tl, ws).Keys == tl.Keys + Timestamps(ws)
    decreases |ws|
  {
    if ws != [] {
      var next := SetMetadata(tl, ws[0].tagging, ws[0].expts, ws[0].ts, ws[0].args);
      WritesKeepEveryTimestamp(next, ws[1..]);
      TimestampsCons(ws);
    }
  }

  lemma TimestampsCons(ws: seq<Write>)
    requires ws != []
    ensures Timestamps(ws) == {ws[0].ts} + Timestamps(ws[1..])
  {
    assert ws == [ws[0]] + ws[1..];
    assert forall w :: w in ws <==> w == ws[0] || w in ws[1..];
  }

  /** Storing N distinct timestamps, for any number of taggings, into an
      empty timeline gives a sorted set of size N. */
  lemma SizeIsDistinctTimestamps(ws: seq<Write>)
    ensures |ApplyWrites(map[], ws)| == |Timestamps(ws)|
  {
    WritesKeepEveryTimestamp(map[], ws);
    assert ApplyWrites(map[], ws).Keys == Timestamps(ws);
  }

  // ---------------------------------------------------------------------
  // zrangebyscore
  // ---------------------------------------------------------------------

  /** A finite set of integers holding `w` has a least element. */
  lemma {:induction false} LeastExists(s: set<int>, w: int)
    requires w in s
    ensures exists lo :: lo in s && forall t :: t in s ==> lo <= t
    decreases |s|
  {
    var rest := s - {w};
    if exists t :: t in rest {
      var t :| t in rest;
      LeastExists(rest, t);
      var lo :| lo in rest && forall u :: u in rest ==> lo <= u;
      var least := if w < lo then w else lo;
      forall u | u in s ensures least <= u {
        if u != w { assert u in rest; }
      }
      assert least in s;
    } else {
      forall u | u in s ensures w <= u {
      }
    }
  }

  /** The least score in `[start, end]`. */
  function LeastInRange(tl: Timeline, start: int, end: int): (lo: int)
    requires exists ts :: ts in tl && start <= ts <= end
    ensures lo in tl && start <= lo <= end
    ensures forall ts :: ts in tl && start <= ts <= end ==> lo <= ts
  {
    var inRange := set ts | ts in tl && start <= ts <= end;
    var w :| w in tl && start <= w <= end;
    assert forall ts :: ts in tl && start <= ts <= end ==> ts in inRange;
    LeastExists(inRange, w);
    var lo :| lo in inRange && forall ts :: ts in inRange ==> lo <= ts;
    lo
  }

  /** `zrangebyscore(key, start, end)`: the scores in `[start, end]`, in
      ascending order. */
  function RangeByScore(tl: Timeline, start: int, end: int): (r: seq<int>)
    ensures forall ts :: ts in r <==> ts in tl && start <= ts <= end
    ensures Ascending(r)
    decreases end - start
  {
    if forall ts :: ts in tl ==> !(start <= ts <= end) then []
    else
      var lo := LeastInRange(tl, start, end);
      [lo] + RangeByScore(tl, lo + 1, end)
  }

  // ---------------------------------------------------------------------
  // del_collection_metadata_by_range
  // ---------------------------------------------------------------------

  /** The deletion touches `ts`: it lies in the range and carries the tagging. */
  predicate Hit(tl: Timeline, tagging: string, start: int, end: int, ts: int) {
    ts in tl && start <= ts <= end && tagging in tl[ts]
  }

  /** `del_collection_metadata_by_range(coll, tagging, start, end)`: drop
      `tagging` from every member in `[start, end]`; a member left without
      taggings is removed together with its score. */
  function DelByRange(tl: Timeline, tagging: string, start: int, end: int): (r: Timeline)
    ensures forall ts :: ts in r ==> ts in tl
    ensures forall ts :: ts in tl && !Hit(tl, tagging, start, end, ts) ==> ts in r && r[ts] == tl[ts]
    ensures forall ts :: Hit(tl, tagging, start, end, ts) ==>
              (ts in r <==> tl[ts].Keys != {tagging}) &&
              (ts in r ==> r[ts] == tl[ts] - {tagging})
    ensures forall ts :: ts in r && start <= ts <= end ==> tagging !in r[ts]
  {
    map ts | ts in tl && !(Hit(tl, tagging, start, end, ts) && tl[ts].Keys == {tagging}) ::
      if Hit(tl, tagging, start, end, ts) then tl[ts] - {tagging} else tl[ts]
  }

  /** A member that keeps another tagging is not empty after the removal. */
  lemma RemoveLeavesOthers(d: Dict, tagging: string)
    requires tagging in d && d.Keys != {tagging}
    ensures d - {tagging} != map[]
  {
    var k :| k in d && k != tagging;
    assert k in d - {tagging};
  }

  /** Removing a tagging empties a member exactly when it was the only one. */
  lemma RemoveEmptiesIff(d: Dict, tagging: string)
    requires tagging in d
    ensures d - {tagging} == map[] <==> d.Keys == {tagging}
  {
    if d.Keys == {tagging} {
      assert (d - {tagging}).Keys == {};
    } else {
      RemoveLeavesOthers(d, tagging);
    }
  }

  /** The deletion never leaves an empty member behind. */
  lemma DelKeepsWellFormed(tl: Timeline, tagging: string, start: int, end: int)
    requires WellFormed(tl)
    ensures WellFormed(DelByRange(tl, tagging, start, end))
  {
    var r := DelByRange(tl, tagging, start, end);
    forall ts | ts in r ensures r[ts] != map[] {
      if Hit(tl, tagging, start, end, ts) {
        RemoveLeavesOthers(tl[ts], tagging);
      }
    }
  }

  /** Deleting over a range that holds no member, or for a tagging absent
      at every timestamp of the range, leaves the timeline as it was. */
  lemma DelWithoutHitIsNoop(tl: Timeline, tagging: string, start: int, end: int)
    requires forall ts :: ts in tl && start <= ts <= end ==> tagging !in tl[ts]
    ensures DelByRange(tl, tagging, start, end) == tl
  {
    var r := DelByRange(tl, tagging, start, end);
    assert r.Keys == tl.Keys;
  }

  // ---------------------------------------------------------------------
  // _query_collection_metadata
  // ---------------------------------------------------------------------

  /** The three shapes a query returns, or `None` when the range is empty. */
  datatype QueryResult =
    | NoElements
    | Taggings(taggings: map<int, set<string>>)   // ts -> its taggings
    | Everything(infos: map<int, Dict>)           // ts -> its whole member
    | Matches(items: seq<(int, Info)>)            // (ts, info of the tagging), ascending ts

  /** The members whose score lies in `[start, end]`. */
  function Window(tl: Timeline, start: int, end: int): Timeline {
    map ts | ts in tl && start <= ts <= end :: tl[ts]
  }

  /** Each timestamp with the set of its taggings. */
  function TaggingsOf(w: Timeline): map<int, set<string>> {
    map ts | ts in w :: w[ts].Keys
  }

  /** `(ts, info[tagging])` for the scores listed that carry the tagging, in
      the order listed. */
  function MatchesOf(tl: Timeline, tagging: string, scores: seq<int>): seq<(int, Info)>
    requires forall ts :: ts in scores ==> ts in tl
  {
    if scores == [] then []
    else
      var ts := scores[|scores| - 1];
      var rest := MatchesOf(tl, tagging, scores[..|scores| - 1]);
      if tagging in tl[ts] then rest + [(ts, tl[ts][tagging])] else rest
  }

  /** `_query_collection_metadata(coll, start, end, tagging)`. */
  function Query(tl: Timeline, start: int, end: int, tagging: string): QueryResult {
    var scores := RangeByScore(tl, start, end);
    if scores == [] then NoElements
    else if tagging == TaggingsView then Taggings(TaggingsOf(Window(tl, start, end)))
    else if tagging == AllView then Everything(Window(tl, start, end))
    else Matches(MatchesOf(tl, tagging, scores))
  }

  predicate AscendingItems(items: seq<(int, Info)>) {
    forall i, j :: 0 <= i < j < |items| ==> items[i].0 < items[j].0
  }

  lemma {:induction false} MatchesOfExact(tl: Timeline, tagging: string, scores: seq<int>)
    requires forall ts :: ts in scores ==> ts in tl
    requires Ascending(scores)
    ensures forall p :: p in MatchesOf(tl, tagging, scores) <==>
              p.0 in scores && tagging in tl[p.0] && p.1 == tl[p.0][tagging]
    ensures AscendingItems(MatchesOf(tl, tagging, scores))
    ensures (forall ts :: ts in scores ==> tagging !in tl[ts]) ==> MatchesOf(tl, tagging, scores) == []
    decreases |scores|
  {
    if scores != [] {
      var n := |scores| - 1;
      var front := scores[..n];
      assert forall ts :: ts in scores <==> ts in front || ts == scores[n];
      MatchesOfExact(tl, tagging, front);
      assert forall ts :: ts in front ==> ts < scores[n];
    }
  }

  /** A query for an ordinary tagging returns `None` exactly when no member
      lies in `[start, end]`; otherwise it returns, in ascending `ts`, the
      pair `(ts, info[tagging])` for exactly those members in range that carry
      the tagging, which is the empty list when none of them does. */
  lemma QueryByTagging(tl: Timeline, start: int, end: int, tagging: string)
    requires tagging != TaggingsView && tagging != AllView
    ensures Query(tl, start, end, tagging).NoElements? || Query(tl, start, end, tagging).Matches?
    ensures Query(tl, start, end, tagging).NoElements? <==> forall ts :: ts in tl ==> !(start <= ts <= end)
    ensures Query(tl, start, end, tagging).Matches? ==>
              var items := Query(tl, start, end, tagging).items;
              AscendingItems(items) &&
              (forall p :: p in items <==> Hit(tl, tagging, start, end, p.0) && p.1 == tl[p.0][tagging])
    ensures (forall ts :: !Hit(tl, tagging, start, end, ts)) ==>
              Query(tl, start, end, tagging) in {NoElements, Matches([])}
  {
    var scores := RangeByScore(tl, start, end);
    if scores != [] {
      MatchesOfExact(tl, tagging, scores);
      if forall ts :: !Hit(tl, tagging, start, end, ts) {
        assert forall ts :: ts in scores ==> !Hit(tl, tagging, start, end, ts);
      }
    } else {
      assert forall ts :: ts in tl ==> !(start <= ts <= end);
    }
  }

  /** The `__taggings__` query maps each timestamp in range to its taggings
      and the `__all__` query to its whole member; both return `None` when
      the range holds no member. */
  lemma QueryWholeMembers(tl: Timeline, start: int, end: int)
    ensures (forall ts :: ts in tl ==> !(start <= ts <= end)) ==>
              Query(tl, start, end, TaggingsView) == NoElements && Query(tl, start, end, AllView) == NoElements
    ensures (exists ts :: ts in tl && start <= ts <= end) ==>
              var t := Query(tl, start, end, TaggingsView);
              var a := Query(tl, start, end, AllView);
              t.Taggings? && a.Everything? &&
              (forall ts :: ts in t.taggings <==> ts in tl && start <= ts <= end) &&
              (forall ts :: ts in t.taggings ==> t.taggings[ts] == tl[ts].Keys) &&
              (forall ts :: ts in a.infos <==> ts in tl && start <= ts <= end) &&
              (forall ts :: ts in a.infos ==> a.infos[ts] == tl[ts])
  {
    var scores := RangeByScore(tl, start, end);
    if exists ts :: ts in tl && start <= ts <= end {
      var ts :| ts in tl && start <= ts <= end;
      assert ts in scores;
    }
  }

  /** Widening the range of a tagging query only adds results: every pair
      returned for `[start, end]` is returned for any enclosing range. */
  lemma QueryWidening(tl: Timeline, start: int, end: int, start': int, end': int, tagging: string)
    requires tagging != TaggingsView && tagging != AllView
    requires start' <= start && end <= end'
    requires Query(tl, start, end, tagging).Matches?
    ensures Query(tl, start', end', tagging).Matches?
    ensures forall p :: p in Query(tl, start, end, tagging).items ==> p in Query(tl, start', end', tagging).items
  {
    QueryByTagging(tl, start, end, tagging);
    QueryByTagging(tl, start', end', tagging);
  }

  /** After a write, a query whose range covers its timestamp returns the
      first writer's info for that tagging there. */
  lemma QueryAfterSet(tl: Timeline, tagging: string, expts: int, ts: int, args: seq<Val>, start: int, end: int)
    requires tagging != TaggingsView && tagging != AllView
    requires start <= ts <= end
    ensures var r := SetMetadata(tl, tagging, expts, ts, args);
            var info := if ts in tl && tagging in tl[ts] then tl[ts][tagging] else MakeInfo(expts, args);
            Query(r, start, end, tagging).Matches? && (ts, info) in Query(r, start, end, tagging).items
  {
    var r := SetMetadata(tl, tagging, expts, ts, args);
    QueryByTagging(r, start, end, tagging);
  }

  /** After deleting a tagging over a range, a query of that tagging over
      the same range finds nothing for it. */
  lemma QueryAfterDel(tl: Timeline, tagging: string, start: int, end: int)
    requires tagging != TaggingsView && tagging != AllView
    ensures var q := Query(DelByRange(tl, tagging, start, end), start, end, tagging);
            q.NoElements? || q == Matches([])
  {
    var r := DelByRange(tl, tagging, start, end);
    QueryByTagging(r, start, end, tagging);
  }
}
