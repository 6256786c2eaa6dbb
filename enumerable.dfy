/** The library collection operations the core relies on: Enumerable.ToDictionary,
    Enumerable.Distinct and a stable sort by an integer key (List.Sort, OrderBy). */
module Enumerable {
  import opened Wrappers

  /** No key occurs twice among the entries. */
  predicate DistinctKeys<K(==), V>(entries: seq<(K, V)>)
  {
    forall i, j | 0 <= i < j < |entries| :: entries[i].0 != entries[j].0
  }

  function KeysOf<K, V>(entries: seq<(K, V)>): set<K>
  {
    set i | 0 <= i < |entries| :: entries[i].0
  }

  /** `error` is the duplicate-key exception for the first entry whose key already occurred before it. */
  predicate DuplicateKeyError<V>(entries: seq<(string, V)>, error: Exception)
  {
    exists j | 0 <= j < |entries| ::
      DistinctKeys(entries[..j]) && entries[j].0 in KeysOf(entries[..j])
      && error == DuplicateKey(entries[j].0)
  }

  /** ToDictionary: adds the entries in order and throws ArgumentException on the first repeated key. */
  function ToDictionary<V>(entries: seq<(string, V)>): (r: Result<map<string, V>, Exception>)
    ensures r.Ok? <==> DistinctKeys(entries)
    ensures r.Err? ==> DuplicateKeyError(entries, r.error)
    ensures r.Ok? ==> r.value.Keys == KeysOf(entries)
    ensures r.Ok? ==> forall i | 0 <= i < |entries| :: r.value[entries[i].0] == entries[i].1
  {
    if |entries| == 0 then Ok(map[])
    else
      var front := entries[..|entries| - 1];
      var last := entries[|entries| - 1];
      var r := ToDictionary(front);
      if r.Err? then
        DuplicateKeyErrorExtends(entries, r.error);
        r
      else if last.0 in r.value then
        DuplicateKeyAtLast(entries);
        Err(DuplicateKey(last.0))
      else
        assert forall i | 0 <= i < |front| :: entries[i] == front[i];
        Ok(r.value[last.0 := last.1])
  }

  /** A repeated key reported for the entries but the last is the one reported for all of them. */
  lemma DuplicateKeyErrorExtends<V>(entries: seq<(string, V)>, error: Exception)
    requires |entries| > 0 && DuplicateKeyError(entries[..|entries| - 1], error)
    ensures DuplicateKeyError(entries, error)
  {
    var front := entries[..|entries| - 1];
    var j :| 0 <= j < |front| && DistinctKeys(front[..j]) && front[j].0 in KeysOf(front[..j])
      && error == DuplicateKey(front[j].0);
    assert entries[..j] == front[..j] && entries[j] == front[j];
  }

  /** When the entries but the last have distinct keys and the last repeats one, the last key is the first
      repeated. */
  lemma DuplicateKeyAtLast<V>(entries: seq<(string, V)>)
    requires |entries| > 0 && DistinctKeys(entries[..|entries| - 1])
    requires entries[|entries| - 1].0 in KeysOf(entries[..|entries| - 1])
    ensures DuplicateKeyError(entries, DuplicateKey(entries[|entries| - 1].0))
  {
  }

  /** Every entry of a built dictionary is one of the given pairs. */
  lemma ToDictionaryMembers<V>(entries: seq<(string, V)>)
    requires ToDictionary(entries).Ok?
    ensures forall k | k in ToDictionary(entries).value :: (k, ToDictionary(entries).value[k]) in entries
  {
    var m := ToDictionary(entries).value;
    forall k | k in m
      ensures (k, m[k]) in entries
    {
      var i :| 0 <= i < |entries| && entries[i].0 == k;
      assert entries[i] == (k, m[k]);
    }
  }

  /** Distinct: keeps the first occurrence of each element, in order. */
  function Distinct<T(==)>(s: seq<T>): (r: seq<T>)
    ensures forall x | x in s :: x in r
    ensures forall x | x in r :: x in s
    ensures forall i, j | 0 <= i < j < |r| :: r[i] != r[j]
  {
    if |s| == 0 then []
    else
      var r := Distinct(s[..|s| - 1]);
      assert forall x | x in s[..|s| - 1] :: x in s;
      assert s == s[..|s| - 1] + [s[|s| - 1]];
      if s[|s| - 1] in r then r else r + [s[|s| - 1]]
  }

  predicate SortedByKey<T>(s: seq<T>, key: T -> int)
  {
    forall i, j | 0 <= i < j < |s| :: key(s[i]) <= key(s[j])
  }

  /** Places x in front of the first element whose key is not smaller, so equal keys keep their order. */
  function InsertByKey<T>(x: T, s: seq<T>, key: T -> int): (r: seq<T>)
    ensures multiset(r) == multiset(s) + multiset{x}
    ensures |r| == |s| + 1
  {
    if |s| == 0 || key(x) <= key(s[0]) then [x] + s
    else
      assert s == [s[0]] + s[1..];
      [s[0]] + InsertByKey(x, s[1..], key)
  }

  /** Inserting into a sorted sequence keeps it sorted and keeps every lower bound of the keys. */
  lemma {:induction false} InsertByKeySorted<T>(x: T, s: seq<T>, key: T -> int, bound: int)
    requires SortedByKey(s, key)
    requires forall k | 0 <= k < |s| :: bound <= key(s[k])
    requires bound <= key(x)
    ensures SortedByKey(InsertByKey(x, s, key), key)
    ensures forall k | 0 <= k < |s| + 1 :: bound <= key(InsertByKey(x, s, key)[k])
  {
    if |s| > 0 && key(s[0]) < key(x) {
      InsertByKeySorted(x, s[1..], key, key(s[0]));
      assert InsertByKey(x, s, key) == [s[0]] + InsertByKey(x, s[1..], key);
    }
  }

  /** A stable sort by an integer key (insertion sort). */
  function SortByKey<T>(s: seq<T>, key: T -> int): (r: seq<T>)
    ensures SortedByKey(r, key)
    ensures multiset(r) == multiset(s)
    ensures |r| == |s|
  {
    if |s| == 0 then []
    else
      assert s == [s[0]] + s[1..];
      var rest := SortByKey(s[1..], key);
      var bound := if |rest| == 0 || key(s[0]) <= key(rest[0]) then key(s[0]) else key(rest[0]);
      InsertByKeySorted(s[0], rest, key, bound);
      InsertByKey(s[0], rest, key)
  }
}
