/** The standard-library searches and sorts that the agent and the master use. */
module Search {

  predicate Sorted(s: seq<int>) {
    forall i, j :: 0 <= i < j < |s| ==> s[i] <= s[j]
  }

  /** The first index at or after `from` whose element is at least x. */
  function LowerBound(s: seq<int>, from: nat, x: int): (r: nat)
    requires from <= |s|
    ensures from <= r <= |s|
    ensures forall i :: from <= i < r ==> s[i] < x
    ensures r < |s| ==> x <= s[r]
    decreases |s| - from
  {
    if from == |s| || x <= s[from] then from else LowerBound(s, from + 1, x)
  }

  lemma {:induction false} LowerBoundUnique(s: seq<int>, from: nat, x: int, r: nat)
    requires from <= r <= |s|
    requires forall i :: from <= i < r ==> s[i] < x
    requires r < |s| ==> x <= s[r]
    ensures r == LowerBound(s, from, x)
    decreases r - from
  {
    if from < r {
      LowerBoundUnique(s, from + 1, x, r);
    }
  }

  /** std::lower_bound on a sorted vector; std::upper_bound for x is this search for x + 1. */
  method BinarySearch(s: seq<int>, from: nat, x: int) returns (r: nat)
    requires from <= |s| && Sorted(s)
    ensures r == LowerBound(s, from, x)
  {
    var lo, hi := from, |s|;
    while lo < hi
      invariant from <= lo <= hi <= |s|
      invariant forall i :: from <= i < lo ==> s[i] < x
      invariant forall i :: hi <= i < |s| ==> x <= s[i]
    {
      var mid := lo + (hi - lo) / 2;
      if s[mid] < x {
        lo := mid + 1;
      } else {
        hi := mid;
      }
    }
    r := lo;
    LowerBoundUnique(s, from, x, r);
  }

  lemma InsertedIsSorted(s: seq<int>, x: int, k: nat)
    requires Sorted(s) && k <= |s|
    requires (forall i :: 0 <= i < k ==> s[i] < x) && (k < |s| ==> x <= s[k])
    ensures Sorted(s[..k] + [x] + s[k..])
  {
  }

  lemma InsertedContents(s: seq<int>, x: int, k: nat)
    requires k <= |s|
    ensures multiset(s[..k] + [x] + s[k..]) == multiset(s) + multiset{x}
  {
    assert s == s[..k] + s[k..];
  }

  function Insert(s: seq<int>, x: int): (r: seq<int>)
    requires Sorted(s)
    ensures Sorted(r) && multiset(r) == multiset(s) + multiset{x}
  {
    var k := LowerBound(s, 0, x);
    InsertedIsSorted(s, x, k);
    InsertedContents(s, x, k);
    s[..k] + [x] + s[k..]
  }

  /** std::sort. */
  function Sort(s: seq<int>): (r: seq<int>)
    ensures Sorted(r) && multiset(r) == multiset(s) && |r| == |s|
  {
    if s == [] then
      []
    else
      var last := |s| - 1;
      var r := Insert(Sort(s[..last]), s[last]);
      assert s == s[..last] + [s[last]];
      assert |multiset(r)| == |r| && |multiset(s)| == |s|;
      r
  }
}
