/** The key-value sort of the agent, which goes through an ordered map from key to position. */
module KeySorting {
  import opened Messages
  import opened Sequences

  /** An ordered map, listed in the ascending key order in which it is iterated. */
  type Entries<T> = seq<(int, T)>

  predicate Ascending<T>(m: Entries<T>) {
    |m| < 2 || (m[0].0 < m[1].0 && Ascending(m[1..]))
  }

  predicate HasKey<T>(m: Entries<T>, key: int) {
    m != [] && (m[0].0 == key || HasKey(m[1..], key))
  }

  /** Inserting leaves an entry with the same key alone. */
  function Insert<T(==)>(m: Entries<T>, entry: (int, T)): (r: Entries<T>)
    requires Ascending(m)
    ensures Ascending(r) && r != [] && r[0] == (if m == [] || entry.0 < m[0].0 then entry else m[0])
    ensures HasKey(m, entry.0) ==> r == m
    ensures !HasKey(m, entry.0) ==> |r| == |m| + 1 && multiset(r) == multiset(m) + multiset{entry}
  {
    if m == [] then
      [entry]
    else if entry.0 < m[0].0 then
      SmallestFirst(m, entry.0);
      [entry] + m
    else if entry.0 == m[0].0 then
      m
    else
      assert m == [m[0]] + m[1..];
      [m[0]] + Insert(m[1..], entry)
  }

  lemma {:induction false} SmallestFirst<T>(m: Entries<T>, key: int)
    requires Ascending(m) && (m == [] || key < m[0].0)
    ensures !HasKey(m, key)
  {
    if |m| > 1 {
      SmallestFirst(m[1..], key);
    }
  }

  lemma {:induction false} InsertedKeys<T>(m: Entries<T>, entry: (int, T), key: int)
    requires Ascending(m)
    ensures HasKey(Insert(m, entry), key) <==> HasKey(m, key) || key == entry.0
  {
    if m != [] && entry.0 < m[0].0 {
      assert ([entry] + m)[1..] == m;
    } else if m != [] && m[0].0 < entry.0 {
      InsertedKeys(m[1..], entry, key);
      assert Insert(m, entry)[1..] == Insert(m[1..], entry);
    }
  }

  /** The map after the first n pairs have been inserted. */
  function MapOf(pairs: KeyValueList, n: nat): (m: KeyValueList)
    requires n <= |pairs|
    ensures Ascending(m) && |m| <= n
  {
    if n == 0 then [] else Insert(MapOf(pairs, n - 1), pairs[n - 1])
  }

  /** What the sort leaves in the arrays: one pair per distinct key in ascending order, then
      whatever the remaining slots held before. */
  function SortedPairs(pairs: KeyValueList): (r: KeyValueList)
    ensures |r| == |pairs|
  {
    var m := MapOf(pairs, |pairs|);
    m + pairs[|m|..]
  }

  predicate KeyAmong(pairs: KeyValueList, n: nat, key: int)
    requires n <= |pairs|
  {
    n > 0 && (pairs[n - 1].0 == key || KeyAmong(pairs, n - 1, key))
  }

  lemma {:induction false} MapHasKeys(pairs: KeyValueList, n: nat, key: int)
    requires n <= |pairs|
    ensures HasKey(MapOf(pairs, n), key) <==> KeyAmong(pairs, n, key)
  {
    if n > 0 {
      MapHasKeys(pairs, n - 1, key);
      InsertedKeys(MapOf(pairs, n - 1), pairs[n - 1], key);
    }
  }

  /** How many pairs can be inserted before a key comes a second time. */
  function FirstRepeat(pairs: KeyValueList, d: nat := 0): (r: nat)
    requires d <= |pairs|
    ensures d <= r <= |pairs|
    decreases |pairs| - d
  {
    if d < |pairs| && !KeyAmong(pairs, d, pairs[d].0) then FirstRepeat(pairs, d + 1) else d
  }

  /** Until a key repeats, the map is a reordering of what was inserted. */
  lemma {:induction false} MapUntilRepeat(pairs: KeyValueList, d: nat)
    requires d <= |pairs| && |MapOf(pairs, d)| == d
    requires multiset(MapOf(pairs, d)) == multiset(pairs[..d])
    ensures var r := FirstRepeat(pairs, d);
            && |MapOf(pairs, r)| == r
            && multiset(MapOf(pairs, r)) == multiset(pairs[..r])
            && (r < |pairs| ==> KeyAmong(pairs, r, pairs[r].0))
    decreases |pairs| - d
  {
    if d < |pairs| && !KeyAmong(pairs, d, pairs[d].0) {
      MapHasKeys(pairs, d, pairs[d].0);
      TakeOneMore(pairs, d);
      MapUntilRepeat(pairs, d + 1);
    }
  }

  lemma {:induction false} MapIsStable(pairs: KeyValueList, d: nat, n: nat)
    requires d <= n <= |pairs|
    requires forall t :: d <= t < n ==> KeyAmong(pairs, d, pairs[t].0)
    ensures MapOf(pairs, n) == MapOf(pairs, d)
  {
    if d < n {
      MapIsStable(pairs, d, n - 1);
      MapHasKeys(pairs, d, pairs[n - 1].0);
    }
  }

  predicate SortedByKey(pairs: KeyValueList) {
    forall i, j :: 0 <= i < j < |pairs| ==> pairs[i].0 <= pairs[j].0
  }

  lemma {:induction false} AscendingIsSorted(m: KeyValueList, i: nat, j: nat)
    requires Ascending(m) && i < j < |m|
    ensures m[i].0 < m[j].0
  {
    if i > 0 {
      AscendingIsSorted(m[1..], i - 1, j - 1);
    } else if j > 1 {
      AscendingIsSorted(m[1..], 0, j - 1);
    }
  }

  predicate IsSortOf(r: KeyValueList, pairs: KeyValueList) {
    SortedByKey(r) && multiset(r) == multiset(pairs)
  }

  /** From the first repeated key on, every pair has that key and it is the largest. */
  predicate RepeatsTrail(pairs: KeyValueList) {
    var d := FirstRepeat(pairs);
    && (forall t :: d <= t < |pairs| ==> pairs[t].0 == pairs[d].0)
    && (d < |pairs| ==> forall s :: 0 <= s < |pairs| ==> pairs[s].0 <= pairs[d].0)
  }

  /** A sorted part that no element of the rest undercuts, and a constant rest. */
  lemma TrailIsSorted(m: KeyValueList, rest: KeyValueList, key: int)
    requires SortedByKey(m) && forall i :: 0 <= i < |m| ==> m[i].0 <= key
    requires forall i :: 0 <= i < |rest| ==> rest[i].0 == key
    ensures SortedByKey(m + rest)
  {
  }

  lemma AscendingIsSortedByKey(m: KeyValueList)
    requires Ascending(m)
    ensures SortedByKey(m)
  {
    hide Ascending;
    forall i, j | 0 <= i < j < |m|
      ensures m[i].0 <= m[j].0
    {
      AscendingIsSorted(m, i, j);
    }
  }

  /** A bound on all pairs is one on any reordering of some of them. */
  lemma BoundCarriesOver(m: KeyValueList, pairs: KeyValueList, d: nat, key: int)
    requires d <= |pairs| && multiset(m) == multiset(pairs[..d])
    requires forall s :: 0 <= s < |pairs| ==> pairs[s].0 <= key
    ensures forall i :: 0 <= i < |m| ==> m[i].0 <= key
  {
    forall i | 0 <= i < |m|
      ensures m[i].0 <= key
    {
      assert m[i] in multiset(m);
      var s := PrefixMember(pairs, d, m[i]);
    }
  }

  lemma SortsWhenRepeatsTrail(pairs: KeyValueList)
    requires RepeatsTrail(pairs)
    ensures IsSortOf(SortedPairs(pairs), pairs)
  {
    hide MapOf, FirstRepeat, KeyAmong, Ascending, SortedByKey;
    var d := FirstRepeat(pairs);
    MapStartsEmpty(pairs);
    MapUntilRepeat(pairs, 0);
    MapIsStable(pairs, d, |pairs|);
    SplitContents(pairs, d);
    var m := MapOf(pairs, d);
    AscendingIsSortedByKey(m);
    if d == |pairs| {
      assert m + pairs[d..] == m;
    } else {
      BoundCarriesOver(m, pairs, d, pairs[d].0);
      TrailIsSorted(m, pairs[d..], pairs[d].0);
    }
  }

  lemma MapStartsEmpty(pairs: KeyValueList)
    ensures MapOf(pairs, 0) == [] && pairs[..0] == []
  {
  }

  lemma {:induction false} KeyAmongHas(pairs: KeyValueList, n: nat, i: nat)
    requires i < n <= |pairs|
    ensures KeyAmong(pairs, n, pairs[i].0)
  {
    if i < n - 1 {
      KeyAmongHas(pairs, n - 1, i);
    }
  }

  lemma {:induction false} HasKeyAt<T>(m: Entries<T>, key: int) returns (i: nat)
    requires HasKey(m, key)
    ensures i < |m| && m[i].0 == key
  {
    if m[0].0 == key {
      i := 0;
    } else {
      i := HasKeyAt(m[1..], key);
      i := i + 1;
    }
  }

  /** If no pair is lost, the slots that the map fills held every key already. */
  lemma MapSlotsHeldKey(pairs: KeyValueList, t: nat) returns (j: nat)
    requires multiset(SortedPairs(pairs)) == multiset(pairs) && t < |pairs|
    ensures var m := MapOf(pairs, |pairs|);
            && j < |m| && m[j].0 == pairs[t].0
            && KeyAmong(pairs, |m|, pairs[t].0)
  {
    var m := MapOf(pairs, |pairs|);
    SplitContents(pairs, |m|);
    assert multiset(SortedPairs(pairs)) == multiset(m) + multiset(pairs[|m|..]);
    SameRest(multiset(m), multiset(pairs[..|m|]), multiset(pairs[|m|..]));
    KeyAmongHas(pairs, |pairs|, t);
    MapHasKeys(pairs, |pairs|, pairs[t].0);
    j := HasKeyAt(m, pairs[t].0);
    assert m[j] in multiset(m);
    var i := PrefixMember(pairs, |m|, m[j]);
    KeyAmongHas(pairs, |m|, i);
  }

  lemma {:induction false} FullMapHasNoRepeat(pairs: KeyValueList, d: nat, n: nat)
    requires d <= n <= |pairs| && |MapOf(pairs, n)| == n
    ensures FirstRepeat(pairs, d) >= n
    decreases n - d
  {
    if d < n {
      FullMapIsFull(pairs, d + 1, n);
      MapHasKeys(pairs, d, pairs[d].0);
      FullMapHasNoRepeat(pairs, d + 1, n);
    }
  }

  lemma {:induction false} FullMapIsFull(pairs: KeyValueList, d: nat, n: nat)
    requires d <= n <= |pairs| && |MapOf(pairs, n)| == n
    ensures |MapOf(pairs, d)| == d
    decreases n
  {
    if d < n {
      FullMapIsFull(pairs, d, n - 1);
    }
  }

  lemma RepeatsTrailWhenSorts(pairs: KeyValueList)
    requires IsSortOf(SortedPairs(pairs), pairs)
    ensures RepeatsTrail(pairs)
  {
    var n := |MapOf(pairs, |pairs|)|;
    forall t | 0 <= t < |pairs|
      ensures KeyAmong(pairs, n, pairs[t].0)
      ensures n > 0 && pairs[t].0 <= SortedPairs(pairs)[n - 1].0
      ensures n <= t ==> pairs[t].0 == SortedPairs(pairs)[n - 1].0
    {
      var j := MapSlotsHeldKey(pairs, t);
      assert SortedPairs(pairs)[j].0 == pairs[t].0;
      assert n <= t ==> SortedPairs(pairs)[t] == pairs[t];
    }
    MapIsStable(pairs, n, |pairs|);
    FullMapHasNoRepeat(pairs, 0, n);
  }

  /** Exactly which inputs the agent's sort sorts without losing a pair. */
  lemma SortsIff(pairs: KeyValueList)
    ensures IsSortOf(SortedPairs(pairs), pairs) <==> RepeatsTrail(pairs)
  {
    if RepeatsTrail(pairs) {
      SortsWhenRepeatsTrail(pairs);
    } else if IsSortOf(SortedPairs(pairs), pairs) {
      RepeatsTrailWhenSorts(pairs);
    }
  }

  lemma {:induction false} DistinctKeysSort(pairs: KeyValueList)
    requires DistinctKeys(pairs)
    ensures RepeatsTrail(pairs)
  {
    MapUntilRepeat(pairs, 0);
    var d := FirstRepeat(pairs);
    if d < |pairs| {
      KeyAmongAt(pairs, d, pairs[d].0);
    }
  }

  lemma {:induction false} KeyAmongAt(pairs: KeyValueList, n: nat, key: int)
    requires n <= |pairs| && KeyAmong(pairs, n, key)
    ensures exists i :: 0 <= i < n && pairs[i].0 == key
  {
    if pairs[n - 1].0 != key {
      KeyAmongAt(pairs, n - 1, key);
    }
  }

  /** Pair i is the first one with its key. */
  predicate FirstOfKey(pairs: KeyValueList, i: int) {
    0 <= i < |pairs| && forall k :: 0 <= k < i ==> pairs[k].0 != pairs[i].0
  }

  lemma FirstOfKeyIff(pairs: KeyValueList, i: nat)
    requires i < |pairs|
    ensures FirstOfKey(pairs, i) <==> !HasKey(MapOf(pairs, i), pairs[i].0)
  {
    MapHasKeys(pairs, i, pairs[i].0);
    if KeyAmong(pairs, i, pairs[i].0) {
      KeyAmongAt(pairs, i, pairs[i].0);
    }
    forall k | 0 <= k < i
      ensures KeyAmong(pairs, i, pairs[k].0)
    {
      KeyAmongHas(pairs, i, k);
    }
  }

  lemma InsertedEntry(m: KeyValueList, entry: (int, real), p: (int, real))
    requires Ascending(m)
    ensures p in multiset(Insert(m, entry)) <==> p in multiset(m) || (p == entry && !HasKey(m, entry.0))
  {
    hide HasKey, Ascending;
  }

  lemma {:induction false} MapHasFirsts(pairs: KeyValueList, n: nat, p: (int, real))
    requires n <= |pairs|
    ensures p in multiset(MapOf(pairs, n)) <==> exists i :: 0 <= i < n && FirstOfKey(pairs, i) && pairs[i] == p
  {
    hide FirstOfKey, HasKey, Insert;
    if n > 0 {
      MapHasFirsts(pairs, n - 1, p);
      FirstOfKeyIff(pairs, n - 1);
      InsertedEntry(MapOf(pairs, n - 1), pairs[n - 1], p);
    }
  }

  /** What the sort leaves in the arrays for any input: n pairs in strictly ascending order of their keys, which
      are the first pairs with their keys and all of them, and behind these what was there before. */
  lemma SortLeavesFirsts(pairs: KeyValueList) returns (n: nat)
    ensures n <= |pairs|
    ensures forall i, j :: 0 <= i < j < n ==> SortedPairs(pairs)[i].0 < SortedPairs(pairs)[j].0
    ensures forall p :: p in SortedPairs(pairs)[..n] <==> exists i :: FirstOfKey(pairs, i) && pairs[i] == p
    ensures forall j :: n <= j < |pairs| ==> SortedPairs(pairs)[j] == pairs[j]
  {
    var m := MapOf(pairs, |pairs|);
    n := |m|;
    assert SortedPairs(pairs)[..n] == m;
    forall i, j | 0 <= i < j < n
      ensures SortedPairs(pairs)[i].0 < SortedPairs(pairs)[j].0
    {
      AscendingIsSorted(m, i, j);
    }
    forall p
      ensures p in m <==> exists i :: FirstOfKey(pairs, i) && pairs[i] == p
    {
      MapHasFirsts(pairs, |pairs|, p);
      assert p in m <==> p in multiset(m);
    }
  }

  /** A map of positions stands for the map of the pairs at these positions. */
  predicate Indexes(index: Entries<nat>, pairs: KeyValueList, m: KeyValueList) {
    |index| == |m| &&
    (m == [] || (&& index[0].0 == m[0].0 && index[0].1 < |pairs| && pairs[index[0].1] == m[0]
                 && Indexes(index[1..], pairs, m[1..])))
  }

  lemma {:induction false} InsertIndex(index: Entries<nat>, pairs: KeyValueList, m: KeyValueList, i: nat)
    requires Ascending<nat>(index) && Ascending(m) && Indexes(index, pairs, m) && i < |pairs|
    ensures Indexes(Insert<nat>(index, (pairs[i].0, i)), pairs, Insert(m, pairs[i]))
  {
    if m == [] || pairs[i].0 < m[0].0 {
      assert Insert<nat>(index, (pairs[i].0, i))[1..] == index;
      assert Insert(m, pairs[i])[1..] == m;
    } else if m[0].0 < pairs[i].0 {
      InsertIndex(index[1..], pairs, m[1..], i);
      assert Insert<nat>(index, (pairs[i].0, i))[1..] == Insert<nat>(index[1..], (pairs[i].0, i));
      assert Insert(m, pairs[i])[1..] == Insert(m[1..], pairs[i]);
    }
  }

  predicate PositionsOf(index: Entries<nat>, pairs: KeyValueList, m: KeyValueList) {
    |index| == |m| && forall j :: 0 <= j < |m| ==> index[j].1 < |pairs| && pairs[index[j].1] == m[j] && index[j].0 == m[j].0
  }

  lemma {:induction false} IndexesPointwise(index: Entries<nat>, pairs: KeyValueList, m: KeyValueList)
    requires Indexes(index, pairs, m)
    ensures PositionsOf(index, pairs, m)
  {
    if m != [] {
      IndexesPointwise(index[1..], pairs, m[1..]);
      assert forall j :: 0 < j < |m| ==> m[j] == m[1..][j - 1] && index[j] == index[1..][j - 1];
    }
  }

  /** The first loop of the sort: the positions of the pairs that the map keeps. */
  method BuildKeyMap(keys: seq<int>, ghost pairs: KeyValueList) returns (keyMap: Entries<nat>)
    requires |keys| == |pairs| && forall i :: 0 <= i < |keys| ==> keys[i] == pairs[i].0
    ensures PositionsOf(keyMap, pairs, MapOf(pairs, |pairs|))
  {
    hide Insert;
    keyMap := [];
    for i := 0 to |keys|
      invariant Ascending<nat>(keyMap) && Indexes(keyMap, pairs, MapOf(pairs, i))
    {
      InsertIndex(keyMap, pairs, MapOf(pairs, i), i);
      keyMap := Insert<nat>(keyMap, (keys[i], i));
    }
    IndexesPointwise(keyMap, pairs, MapOf(pairs, |pairs|));
  }

  /** The second loop: the kept pairs go to the front of the arrays. */
  method WriteBack(keyMap: Entries<nat>, keys: array<int>, values: array<real>, ghost pairs: KeyValueList, ghost m: KeyValueList)
    requires PositionsOf(keyMap, pairs, m)
    requires |m| <= |pairs| <= keys.Length && |pairs| <= values.Length
    requires forall j :: 0 <= j < |pairs| ==> pairs[j].0 == keys[j] && pairs[j].1 == values[j]
    modifies keys, values
    ensures forall j :: 0 <= j < |m| ==> keys[j] == m[j].0 && values[j] == m[j].1
    ensures forall j :: |m| <= j < keys.Length ==> keys[j] == old(keys[j])
    ensures forall j :: |m| <= j < values.Length ==> values[j] == old(values[j])
  {
    var tmpValues := values[..];
    for written := 0 to |keyMap|
      invariant forall j :: 0 <= j < written ==> keys[j] == m[j].0 && values[j] == m[j].1
      invariant forall j :: written <= j < keys.Length ==> keys[j] == old(keys[j])
      invariant forall j :: written <= j < values.Length ==> values[j] == old(values[j])
    {
      keys[written] := keyMap[written].0;
      values[written] := tmpValues[keyMap[written].1];
    }
  }

  /** Sorts the first `size` keys in place and moves each value with its key. */
  method SortKeyValue(keys: array<int>, values: array<real>, size: nat)
    requires size <= keys.Length && size <= values.Length
    modifies keys, values
    ensures Pairs(keys[..size], values[..size]) == SortedPairs(old(Pairs(keys[..size], values[..size])))
    ensures keys[size..] == old(keys[size..]) && values[size..] == old(values[size..])
  {
    hide MapOf, PositionsOf;
    ghost var pairs := Pairs(keys[..size], values[..size]);
    var keyMap := BuildKeyMap(keys[..size], pairs);
    WriteBack(keyMap, keys, values, pairs, MapOf(pairs, size));
  }
}
