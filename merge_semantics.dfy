/** What a MERGE does to a keyed table, as the Upsert and Synchronize scenarios expect it: target rows matched by a
    source row are updated (or kept when there is no update branch), unmatched target rows are kept or, with
    `delete`, removed, and unmatched source rows are inserted when there is an insert branch. */
module MergeScenarios {
  import opened Wrappers
  import opened Enumerable

  // ---------------------------------------------------------------------------------------------
  // Reference semantics

  /** The keys present among the rows. */
  function KeySet<T, K>(rows: seq<T>, key: T -> K): set<K>
  {
    set i | 0 <= i < |rows| :: key(rows[i])
  }

  lemma KeySetAppend<T, K>(a: seq<T>, b: seq<T>, key: T -> K)
    ensures KeySet(a + b, key) == KeySet(a, key) + KeySet(b, key)
  {
    var ab := a + b;
    forall k | k in KeySet(ab, key)
      ensures k in KeySet(a, key) + KeySet(b, key)
    {
      var i :| 0 <= i < |ab| && key(ab[i]) == k;
      if i < |a| {
        assert ab[i] == a[i];
      } else {
        assert ab[i] == b[i - |a|];
      }
    }
    forall k | k in KeySet(a, key) + KeySet(b, key)
      ensures k in KeySet(ab, key)
    {
      if k in KeySet(a, key) {
        var i :| 0 <= i < |a| && key(a[i]) == k;
        assert ab[i] == a[i];
      } else {
        var i :| 0 <= i < |b| && key(b[i]) == k;
        assert ab[|a| + i] == b[i];
      }
    }
  }

  lemma KeySetSnoc<T, K>(rows: seq<T>, key: T -> K)
    requires |rows| > 0
    ensures KeySet(rows, key) == KeySet(rows[..|rows| - 1], key) + {key(rows[|rows| - 1])}
  {
    assert rows == rows[..|rows| - 1] + [rows[|rows| - 1]];
    KeySetAppend(rows[..|rows| - 1], [rows[|rows| - 1]], key);
  }

  lemma KeySetSingleton<T, K>(x: T, key: T -> K)
    ensures KeySet([x], key) == {key(x)}
  {
    assert [x][0] == x;
    assert key(x) in KeySet([x], key);
  }

  predicate UniqueKeys<T, K(==)>(rows: seq<T>, key: T -> K)
  {
    forall i, j | 0 <= i < j < |rows| :: key(rows[i]) != key(rows[j])
  }

  /** The first source row joined to a target key, if any. */
  function FirstMatch<S, K(==)>(source: seq<S>, skey: S -> K, k: K): (r: Option<S>)
    ensures r.None? <==> k !in KeySet(source, skey)
    ensures r.Some? ==> r.value in source && skey(r.value) == k
  {
    if |source| == 0 then None
    else if skey(source[0]) == k then Some(source[0])
    else
      var rest := FirstMatch(source[1..], skey, k);
      assert source == [source[0]] + source[1..];
      KeySetAppend([source[0]], source[1..], skey);
      rest
  }

  /** The target rows after the MATCHED and NOT MATCHED BY SOURCE branches, in table order. */
  function TargetPart<T, S, K(==)>(target: seq<T>, source: seq<S>, tkey: T -> K, skey: S -> K,
                                   update: Option<(T, S) -> T>, delete: bool): seq<T>
  {
    if |target| == 0 then []
    else
      var front := TargetPart(target[..|target| - 1], source, tkey, skey, update, delete);
      var t := target[|target| - 1];
      var m := FirstMatch(source, skey, tkey(t));
      if m.Some? then front + [if update.Some? then update.value(t, m.value) else t]
      else if delete then front
      else front + [t]
  }

  /** The rows the NOT MATCHED BY TARGET branch inserts, in source order. */
  function InsertPart<T, S, K(==)>(target: seq<T>, source: seq<S>, tkey: T -> K, skey: S -> K,
                                   insert: Option<S -> T>): seq<T>
  {
    if |source| == 0 || insert.None? then []
    else
      var front := InsertPart(target, source[..|source| - 1], tkey, skey, insert);
      var s := source[|source| - 1];
      if skey(s) in KeySet(target, tkey) then front else front + [insert.value(s)]
  }

  function MergeRows<T, S, K(==)>(target: seq<T>, source: seq<S>, tkey: T -> K, skey: S -> K,
                                  update: Option<(T, S) -> T>, insert: Option<S -> T>, delete: bool): seq<T>
  {
    TargetPart(target, source, tkey, skey, update, delete) + InsertPart(target, source, tkey, skey, insert)
  }

  /** The branches keep keys: an update does not change the row's key, an insert takes the source row's key. */
  ghost predicate KeyPreserving<T(!new), S(!new), K>(tkey: T -> K, skey: S -> K, update: Option<(T, S) -> T>,
                                                     insert: Option<S -> T>)
  {
    && (update.Some? ==> forall t, s :: tkey(update.value(t, s)) == tkey(t))
    && (insert.Some? ==> forall s :: tkey(insert.value(s)) == skey(s))
  }

  lemma {:induction false} TargetPartKeys<T(!new), S(!new), K>(target: seq<T>, source: seq<S>, tkey: T -> K,
                                                               skey: S -> K, update: Option<(T, S) -> T>,
                                                               insert: Option<S -> T>, delete: bool)
    requires KeyPreserving(tkey, skey, update, insert)
    ensures KeySet(TargetPart(target, source, tkey, skey, update, delete), tkey)
         == if delete then KeySet(target, tkey) * KeySet(source, skey) else KeySet(target, tkey)
  {
    if |target| > 0 {
      var front := target[..|target| - 1];
      var t := target[|target| - 1];
      TargetPartKeys(front, source, tkey, skey, update, insert, delete);
      KeySetSnoc(target, tkey);
      var f := TargetPart(front, source, tkey, skey, update, delete);
      var r := TargetPart(target, source, tkey, skey, update, delete);
      if r != f {
        var x := r[|r| - 1];
        assert r == f + [x] && tkey(x) == tkey(t);
        KeySetAppend(f, [x], tkey);
        KeySetSingleton(x, tkey);
      }
    }
  }

  lemma {:induction false} InsertPartKeys<T(!new), S(!new), K>(target: seq<T>, source: seq<S>, tkey: T -> K,
                                                               skey: S -> K, update: Option<(T, S) -> T>,
                                                               insert: Option<S -> T>)
    requires KeyPreserving(tkey, skey, update, insert)
    ensures KeySet(InsertPart(target, source, tkey, skey, insert), tkey)
         == if insert.Some? then KeySet(source, skey) - KeySet(target, tkey) else {}
  {
    if |source| > 0 && insert.Some? {
      var front := source[..|source| - 1];
      var s := source[|source| - 1];
      InsertPartKeys(target, front, tkey, skey, update, insert);
      KeySetSnoc(source, skey);
      var f := InsertPart(target, front, tkey, skey, insert);
      var r := InsertPart(target, source, tkey, skey, insert);
      if r != f {
        var x := insert.value(s);
        assert r == f + [x] && tkey(x) == skey(s);
        KeySetAppend(f, [x], tkey);
        KeySetSingleton(x, tkey);
      }
    }
  }

  /** The key set after a merge: a target key survives when it is matched or nothing is deleted, and a source key
      is added when it was not in the table and there is an insert branch. */
  lemma MergeRowsKeys<T(!new), S(!new), K>(target: seq<T>, source: seq<S>, tkey: T -> K, skey: S -> K,
                                           update: Option<(T, S) -> T>, insert: Option<S -> T>, delete: bool)
    requires KeyPreserving(tkey, skey, update, insert)
    ensures KeySet(MergeRows(target, source, tkey, skey, update, insert, delete), tkey)
         == (if delete then KeySet(target, tkey) * KeySet(source, skey) else KeySet(target, tkey))
            + (if insert.Some? then KeySet(source, skey) - KeySet(target, tkey) else {})
  {
    var a := TargetPart(target, source, tkey, skey, update, delete);
    var b := InsertPart(target, source, tkey, skey, insert);
    TargetPartKeys(target, source, tkey, skey, update, insert, delete);
    InsertPartKeys(target, source, tkey, skey, update, insert);
    KeySetAppend(a, b, tkey);
  }

  /** A new last row keeps the keys unique when its key is not among the others. */
  lemma SnocUnique<T, K>(rows: seq<T>, x: T, key: T -> K)
    requires UniqueKeys(rows, key) && key(x) !in KeySet(rows, key)
    ensures UniqueKeys(rows + [x], key)
  {
    var all := rows + [x];
    forall i, j | 0 <= i < j < |all|
      ensures key(all[i]) != key(all[j])
    {
      assert all[i] == rows[i];
      if j == |rows| {
        assert key(rows[i]) in KeySet(rows, key);
      } else {
        assert all[j] == rows[j];
      }
    }
  }

  lemma UniqueKeysLast<T, K>(rows: seq<T>, key: T -> K)
    requires |rows| > 0 && UniqueKeys(rows, key)
    ensures UniqueKeys(rows[..|rows| - 1], key)
    ensures key(rows[|rows| - 1]) !in KeySet(rows[..|rows| - 1], key)
  {
    var front := rows[..|rows| - 1];
    forall i | 0 <= i < |front|
      ensures key(front[i]) != key(rows[|rows| - 1])
    {
      assert front[i] == rows[i];
    }
  }

  lemma {:induction false} TargetPartUnique<T(!new), S(!new), K>(target: seq<T>, source: seq<S>, tkey: T -> K,
                                                                 skey: S -> K, update: Option<(T, S) -> T>,
                                                                 insert: Option<S -> T>, delete: bool)
    requires KeyPreserving(tkey, skey, update, insert) && UniqueKeys(target, tkey)
    ensures UniqueKeys(TargetPart(target, source, tkey, skey, update, delete), tkey)
  {
    if |target| > 0 {
      var front := target[..|target| - 1];
      var t := target[|target| - 1];
      UniqueKeysLast(target, tkey);
      TargetPartUnique(front, source, tkey, skey, update, insert, delete);
      TargetPartKeys(front, source, tkey, skey, update, insert, delete);
      var f := TargetPart(front, source, tkey, skey, update, delete);
      var r := TargetPart(target, source, tkey, skey, update, delete);
      if r != f {
        var x := r[|r| - 1];
        assert r == f + [x] && tkey(x) == tkey(t);
        SnocUnique(f, x, tkey);
      }
    }
  }

  lemma {:induction false} InsertPartUnique<T(!new), S(!new), K>(target: seq<T>, source: seq<S>, tkey: T -> K,
                                                                 skey: S -> K, update: Option<(T, S) -> T>,
                                                                 insert: Option<S -> T>)
    requires KeyPreserving(tkey, skey, update, insert) && UniqueKeys(source, skey)
    ensures UniqueKeys(InsertPart(target, source, tkey, skey, insert), tkey)
  {
    if |source| > 0 && insert.Some? {
      var front := source[..|source| - 1];
      var s := source[|source| - 1];
      UniqueKeysLast(source, skey);
      InsertPartUnique(target, front, tkey, skey, update, insert);
      InsertPartKeys(target, front, tkey, skey, update, insert);
      var f := InsertPart(target, front, tkey, skey, insert);
      var r := InsertPart(target, source, tkey, skey, insert);
      if r != f {
        var x := insert.value(s);
        assert r == f + [x] && tkey(x) == skey(s);
        SnocUnique(f, x, tkey);
      }
    }
  }

  /** Merging a source with unique keys into a table with unique keys leaves a table with unique keys. */
  lemma MergeRowsUniqueKeys<T(!new), S(!new), K>(target: seq<T>, source: seq<S>, tkey: T -> K, skey: S -> K,
                                                 update: Option<(T, S) -> T>, insert: Option<S -> T>, delete: bool)
    requires KeyPreserving(tkey, skey, update, insert)
    requires UniqueKeys(target, tkey) && UniqueKeys(source, skey)
    ensures UniqueKeys(MergeRows(target, source, tkey, skey, update, insert, delete), tkey)
  {
    var a := TargetPart(target, source, tkey, skey, update, delete);
    var b := InsertPart(target, source, tkey, skey, insert);
    TargetPartUnique(target, source, tkey, skey, update, insert, delete);
    InsertPartUnique(target, source, tkey, skey, update, insert);
    TargetPartKeys(target, source, tkey, skey, update, insert, delete);
    InsertPartKeys(target, source, tkey, skey, update, insert);
    var all := a + b;
    forall i, j | 0 <= i < j < |all|
      ensures tkey(all[i]) != tkey(all[j])
    {
      if i < |a| && j >= |a| {
        assert all[i] == a[i] && all[j] == b[j - |a|];
        assert tkey(a[i]) in KeySet(a, tkey);
        assert tkey(b[j - |a|]) in KeySet(b, tkey);
      } else if i >= |a| {
        assert all[i] == b[i - |a|] && all[j] == b[j - |a|];
      } else {
        assert all[i] == a[i] && all[j] == a[j];
      }
    }
  }

  /** Merging an empty source touches nothing, or with `delete` empties the table. */
  lemma {:induction false} MergeEmptySource<T, S, K>(target: seq<T>, tkey: T -> K, skey: S -> K,
                                                     update: Option<(T, S) -> T>, insert: Option<S -> T>, delete: bool)
    ensures MergeRows(target, [], tkey, skey, update, insert, delete) == if delete then [] else target
  {
    if |target| > 0 {
      var front := target[..|target| - 1];
      MergeEmptySource(front, tkey, skey, update, insert, delete);
      assert front + [target[|target| - 1]] == target;
    }
  }

  // ---------------------------------------------------------------------------------------------
  // The scenario data

  datatype RankCache = RankCache(contestId: int, teamId: int, pointsRestricted: int, totalTimeRestricted: int,
                                 pointsPublic: int, totalTimePublic: int)

  datatype RankSource = RankSource(contestId: int, teamId: int, time: int, isPublic: bool)

  /** The anonymous element type of the Upsert scenario's in-memory source. */
  datatype UpsertRow = UpsertRow(contestId: int, teamId: int, time: int)

  /** Both tables are keyed by (ContestId, TeamId). */
  function RankCacheKey(r: RankCache): (int, int)
  {
    (r.contestId, r.teamId)
  }

  function RankSourceKey(r: RankSource): (int, int)
  {
    (r.contestId, r.teamId)
  }

  function UpsertRowKey(r: UpsertRow): (int, int)
  {
    (r.contestId, r.teamId)
  }

  /** The fixture's RankCache rows. */
  const SeedRankCache := [RankCache(1, 2, 1, 9, 1, 9), RankCache(1, 3, 1, 9, 1, 9)]

  /** The fixture's RankSource rows. */
  const SeedRankSource := [RankSource(2, 1, 100, true), RankSource(1, 2, 77, false)]

  const UpsertSource := [UpsertRow(1, 2, 50), UpsertRow(3, 4, 50)]

  /** Upsert: the update sets only the public fields; the insert sets every column. */
  function UpsertUpdate(rc: RankCache, rc2: UpsertRow): RankCache
  {
    rc.(pointsPublic := rc.pointsPublic + 1, totalTimePublic := rc.totalTimePublic + rc2.time)
  }

  function UpsertInsert(rc2: UpsertRow): RankCache
  {
    RankCache(rc2.contestId, rc2.teamId, 1, rc2.time, 1, rc2.time)
  }

  /** Synchronize: the public fields only move for a public submission; the restricted ones always do. */
  function SynchronizeUpdate(rc: RankCache, rc2: RankSource): RankCache
  {
    rc.(pointsPublic := if rc2.isPublic then rc.pointsPublic + 1 else rc.pointsPublic,
        totalTimePublic := if rc2.isPublic then rc.totalTimePublic + rc2.time else rc.totalTimePublic,
        pointsRestricted := rc.pointsRestricted + 1,
        totalTimeRestricted := rc.totalTimeRestricted + rc2.time)
  }

  function SynchronizeInsert(rc2: RankSource): RankCache
  {
    RankCache(rc2.contestId, rc2.teamId, 1, rc2.time, if rc2.isPublic then 1 else 0, if rc2.isPublic then rc2.time else 0)
  }

  function Upsert(target: seq<RankCache>): seq<RankCache>
  {
    MergeRows(target, UpsertSource, RankCacheKey, UpsertRowKey, Some(UpsertUpdate), Some(UpsertInsert), false)
  }

  function Synchronize(target: seq<RankCache>, source: seq<RankSource>): seq<RankCache>
  {
    MergeRows(target, source, RankCacheKey, RankSourceKey, Some(SynchronizeUpdate), Some(SynchronizeInsert), true)
  }

  function ContestIdKey(r: RankCache): int
  {
    r.contestId
  }

  function TeamIdKey(r: RankCache): int
  {
    r.teamId
  }

  /** `OrderBy(ContestId).ThenBy(TeamId)`: a stable sort by the secondary key followed by one by the primary key. */
  function OrderByContestThenTeam(rows: seq<RankCache>): seq<RankCache>
  {
    SortByKey(SortByKey(rows, TeamIdKey), ContestIdKey)
  }

  // ---------------------------------------------------------------------------------------------
  // The scenarios

  lemma SeedKeysUnique()
    ensures UniqueKeys(SeedRankCache, RankCacheKey) && UniqueKeys(SeedRankSource, RankSourceKey)
  {
  }

  /** Upsert on the seeded table: (1,2) is updated in its public fields only, (1,3) is untouched and (3,4) is
      inserted, so the table holds three rows. */
  lemma UpsertScenario()
    ensures Upsert(SeedRankCache)
         == [RankCache(1, 2, 1, 9, 2, 59), RankCache(1, 3, 1, 9, 1, 9), RankCache(3, 4, 1, 50, 1, 50)]
    ensures |Upsert(SeedRankCache)| == 3
    ensures Upsert(SeedRankCache)[0].totalTimeRestricted == 9
  {
    var target, source := SeedRankCache, UpsertSource;
    assert FirstMatch(source, UpsertRowKey, (1, 2)) == Some(UpsertRow(1, 2, 50));
    assert FirstMatch(source, UpsertRowKey, (1, 3)) == None;
    assert target[..1] == [RankCache(1, 2, 1, 9, 1, 9)] && target[..1][..0] == [];
    assert TargetPart(target[..1], source, RankCacheKey, UpsertRowKey, Some(UpsertUpdate), false)
        == [RankCache(1, 2, 1, 9, 2, 59)];
    PairKeySet(target[0], target[1], RankCacheKey);
    assert target == [target[0], target[1]];
    assert source[..1] == [UpsertRow(1, 2, 50)] && source[..1][..0] == [];
    assert InsertPart(target, source[..1], RankCacheKey, UpsertRowKey, Some(UpsertInsert)) == [];
  }

  function Contents(rows: seq<RankCache>): seq<RankCache>
  {
    OrderByContestThenTeam(rows)
  }

  /** Synchronize from RankSource with `delete`: the private submission of (1,2) adds only to the restricted
      totals (9 + 77), (1,3) and (3,4), unmatched by the source, are removed, and (2,1) is inserted; in key order
      the two remaining rows have restricted totals 86 and 100. This holds whether or not Upsert ran first. */
  lemma SynchronizeScenario()
    ensures var contents := Contents(Synchronize(Upsert(SeedRankCache), SeedRankSource));
      |contents| == 2 && contents[0].totalTimeRestricted == 86 && contents[1].totalTimeRestricted == 100
    ensures var contents := Contents(Synchronize(SeedRankCache, SeedRankSource));
      |contents| == 2 && contents[0].totalTimeRestricted == 86 && contents[1].totalTimeRestricted == 100
  {
    UpsertScenario();
    SeedSourceKeys();
    var afterUpsert := Upsert(SeedRankCache);
    SynchronizeTwoRows(afterUpsert, RankCache(1, 2, 2, 86, 2, 59));
    SynchronizeTwoRows(SeedRankCache, RankCache(1, 2, 2, 86, 1, 9));
  }

  lemma SeedSourceKeys()
    ensures KeySet(SeedRankSource, RankSourceKey) == {(2, 1), (1, 2)}
  {
    var s := SeedRankSource;
    PairKeySet(s[0], s[1], RankSourceKey);
    assert s == [s[0], s[1]];
  }

  lemma PairKeySet<T, K>(a: T, b: T, key: T -> K)
    ensures KeySet([a, b], key) == {key(a), key(b)}
  {
    KeySetAppend([a], [b], key);
    assert [a] + [b] == [a, b];
    KeySetSingleton(a, key);
    KeySetSingleton(b, key);
  }

  /** Either starting table contains (1,2) first and then rows the source does not match. */
  lemma SynchronizeTwoRows(target: seq<RankCache>, updated: RankCache)
    requires |target| >= 1 && target[0].contestId == 1 && target[0].teamId == 2
    requires forall k | 1 <= k < |target| :: RankCacheKey(target[k]) !in KeySet(SeedRankSource, RankSourceKey)
    requires forall k | 1 <= k < |target| :: RankCacheKey(target[k]) != (1, 2)
    requires updated == SynchronizeUpdate(target[0], RankSource(1, 2, 77, false))
    requires updated.totalTimeRestricted == 86
    ensures var contents := Contents(Synchronize(target, SeedRankSource));
      |contents| == 2 && contents[0] == updated && contents[1] == RankCache(2, 1, 1, 100, 1, 100)
  {
    var source := SeedRankSource;
    var inserted := RankCache(2, 1, 1, 100, 1, 100);
    SeedSourceKeys();
    SynchronizeTargetPart(target, updated, |target|);
    assert target[..|target|] == target;
    forall i | 0 <= i < |target|
      ensures RankCacheKey(target[i]) != (2, 1)
    {
      if i >= 1 {
        assert (2, 1) in KeySet(SeedRankSource, RankSourceKey);
      }
    }
    assert (2, 1) !in KeySet(target, RankCacheKey);
    assert RankCacheKey(target[0]) in KeySet(target, RankCacheKey);
    assert source[..1] == [RankSource(2, 1, 100, true)] && source[..1][..0] == [];
    assert InsertPart(target, source[..1], RankCacheKey, RankSourceKey, Some(SynchronizeInsert)) == [inserted];
    assert Synchronize(target, source) == [updated, inserted];
    SortPair(updated, inserted, TeamIdKey);
    SortPair(inserted, updated, ContestIdKey);
  }

  lemma SortPair<T>(a: T, b: T, key: T -> int)
    ensures SortByKey([a, b], key) == if key(a) <= key(b) then [a, b] else [b, a]
  {
    assert [a, b][1..] == [b] && [b][1..] == [];
  }

  lemma {:induction false} SynchronizeTargetPart(target: seq<RankCache>, updated: RankCache, n: nat)
    requires 1 <= n <= |target| && target[0].contestId == 1 && target[0].teamId == 2
    requires forall k | 1 <= k < |target| :: RankCacheKey(target[k]) !in KeySet(SeedRankSource, RankSourceKey)
    requires updated == SynchronizeUpdate(target[0], RankSource(1, 2, 77, false))
    ensures TargetPart(target[..n], SeedRankSource, RankCacheKey, RankSourceKey, Some(SynchronizeUpdate), true) == [updated]
  {
    assert FirstMatch(SeedRankSource, RankSourceKey, (1, 2)) == Some(RankSource(1, 2, 77, false));
    if n == 1 {
      assert target[..1][..0] == [];
    } else {
      assert target[..n][..n - 1] == target[..n - 1];
      SynchronizeTargetPart(target, updated, n - 1);
      assert FirstMatch(SeedRankSource, RankSourceKey, RankCacheKey(target[n - 1])).None?;
    }
  }
}
