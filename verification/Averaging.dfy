/** What the updates of a round add up to. */
module Averaging {
  import opened Messages
  import opened Sequences

  /** What the first n pairs of an update add to one key. */
  function Contribution(update: KeyValueList, n: nat, key: int): real
    requires n <= |update|
  {
    if n == 0 then 0.0
    else Contribution(update, n - 1, key) + if update[n - 1].0 == key then update[n - 1].1 else 0.0
  }

  /** What an update says about one key. */
  function Total(update: KeyValueList, key: int): real {
    Contribution(update, |update|, key)
  }

  lemma {:induction false} ContributionOfPrefix(a: KeyValueList, b: KeyValueList, n: nat, key: int)
    requires n <= |a| && n <= |b| && forall i :: 0 <= i < n ==> a[i] == b[i]
    ensures Contribution(a, n, key) == Contribution(b, n, key)
  {
    if n > 0 {
      ContributionOfPrefix(a, b, n - 1, key);
    }
  }

  lemma TotalOfLast(update: KeyValueList, key: int)
    requires update != []
    ensures var last := |update| - 1;
            Total(update, key) == Total(update[..last], key) + if update[last].0 == key then update[last].1 else 0.0
  {
    ContributionOfPrefix(update, update[..|update| - 1], |update| - 1, key);
  }

  lemma {:induction false} TotalConcat(a: KeyValueList, b: KeyValueList, key: int)
    ensures Total(a + b, key) == Total(a, key) + Total(b, key)
  {
    if b == [] {
      assert a + b == a;
    } else {
      TotalConcat(a, b[..|b| - 1], key);
      assert (a + b)[..|a + b| - 1] == a + b[..|b| - 1];
      TotalOfLast(a + b, key);
      TotalOfLast(b, key);
    }
  }

  lemma TotalWithout(update: KeyValueList, i: nat, key: int)
    requires i < |update|
    ensures Total(update, key)
            == Total(update[..i] + update[i + 1..], key) + if update[i].0 == key then update[i].1 else 0.0
  {
    TotalConcat(update[..i + 1], update[i + 1..], key);
    assert update == update[..i + 1] + update[i + 1..];
    TotalOfLast(update[..i + 1], key);
    assert update[..i + 1][..i] == update[..i];
    TotalConcat(update[..i], update[i + 1..], key);
  }

  lemma TakenOut(b: KeyValueList, i: nat)
    requires i < |b|
    ensures multiset(b) == multiset(b[..i] + b[i + 1..]) + multiset{b[i]}
  {
    assert b == b[..i] + [b[i]] + b[i + 1..];
  }

  /** The order of the pairs in an update does not matter. */
  lemma {:induction false} TotalOfReordering(a: KeyValueList, b: KeyValueList, key: int)
    requires multiset(a) == multiset(b)
    ensures Total(a, key) == Total(b, key)
    decreases |a|
  {
    assert |multiset(a)| == |a| && |multiset(b)| == |b|;
    if a != [] {
      var last := |a| - 1;
      assert a == a[..last] + [a[last]];
      assert a[last] in multiset(b);
      var i :| 0 <= i < |b| && b[i] == a[last];
      var rest := b[..i] + b[i + 1..];
      TakenOut(b, i);
      SameRest(multiset(a[..last]), multiset(rest), multiset{a[last]});
      TotalOfReordering(a[..last], rest, key);
      TotalOfLast(a, key);
      TotalWithout(b, i, key);
    }
  }

  // ---- The updates of a round ----

  /** What the first m agents of a round add to one key. */
  function RoundSum(round: seq<KeyValueList>, m: nat, key: int): real
    requires m <= |round|
  {
    if m == 0 then 0.0 else RoundSum(round, m - 1, key) + Contribution(round[m - 1], |round[m - 1]|, key)
  }

  /** The pairs of several updates, one update after the other. */
  function AllPairs(updates: seq<KeyValueList>): KeyValueList {
    if updates == [] then [] else AllPairs(updates[..|updates| - 1]) + updates[|updates| - 1]
  }

  lemma AllPairsOfOne(update: KeyValueList)
    ensures AllPairs([update]) == update && AllPairs([]) == []
  {
    assert [update][..0] == [];
  }

  lemma {:induction false} AllPairsConcat(a: seq<KeyValueList>, b: seq<KeyValueList>)
    ensures AllPairs(a + b) == AllPairs(a) + AllPairs(b)
  {
    if b == [] {
      assert a + b == a;
    } else {
      AllPairsConcat(a, b[..|b| - 1]);
      assert (a + b)[..|a + b| - 1] == a + b[..|b| - 1];
    }
  }

  /** The loops over the agents and their pairs add up exactly the pairs of all these updates. */
  lemma {:induction false} RoundSumIsTotal(round: seq<KeyValueList>, m: nat, key: int)
    requires m <= |round|
    ensures RoundSum(round, m, key) == Total(AllPairs(round[..m]), key)
  {
    if m > 0 {
      RoundSumIsTotal(round, m - 1, key);
      TakeOneMore(round, m - 1);
      assert round[..m][..m - 1] == round[..m - 1];
      TotalConcat(AllPairs(round[..m - 1]), round[m - 1], key);
    }
  }

  lemma WholeRoundSum(round: seq<KeyValueList>, key: int)
    ensures RoundSum(round, |round|, key) == Total(AllPairs(round), key)
  {
    RoundSumIsTotal(round, |round|, key);
    assert round[..|round|] == round;
  }
}
