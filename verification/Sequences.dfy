/** Small facts about slices of sequences. */
module Sequences {

  lemma TakeOneMore<T>(s: seq<T>, d: nat)
    requires d < |s|
    ensures s[..d + 1] == s[..d] + [s[d]]
  {
  }

  lemma SplitSuffix<T>(s: seq<T>, from: nat, mid: nat)
    requires from <= mid <= |s|
    ensures s[from..] == s[from..mid] + s[mid..]
    ensures s[0..] == s
  {
  }

  lemma ConcatAssociates<T>(a: seq<T>, b: seq<T>, c: seq<T>)
    ensures a + b + c == a + (b + c)
  {
  }

  /** Moving the first remaining element over to what is done. */
  lemma MoveOver<T>(finished: seq<T>, x: T, rest: seq<T>)
    ensures finished + [x] + rest == finished + ([x] + rest)
  {
  }

  lemma SplitContents<T>(s: seq<T>, d: nat)
    requires d <= |s|
    ensures multiset(s) == multiset(s[..d]) + multiset(s[d..])
  {
    assert s == s[..d] + s[d..];
  }

  lemma SameRest<T>(a: multiset<T>, b: multiset<T>, rest: multiset<T>)
    requires a + rest == b + rest
    ensures a == b
  {
    forall x
      ensures a[x] == b[x]
    {
      assert (a + rest)[x] == a[x] + rest[x];
      assert (b + rest)[x] == b[x] + rest[x];
    }
  }

  lemma PrefixMember<T>(s: seq<T>, d: nat, x: T) returns (i: nat)
    requires d <= |s| && x in multiset(s[..d])
    ensures i < d && s[i] == x
  {
    assert x in s[..d];
    i :| 0 <= i < d && s[..d][i] == x;
  }

  /** All but the element at position p. */
  function Erase<T>(s: seq<T>, p: nat): (r: seq<T>)
    requires p < |s|
    ensures |r| == |s| - 1
    ensures forall i :: 0 <= i < |r| ==> r[i] == if i < p then s[i] else s[i + 1]
  {
    s[..p] + s[p + 1..]
  }

  lemma EraseAppend<T>(s: seq<T>, x: T, p: nat)
    requires p <= |s|
    ensures Erase(s + [x], p) == if p == |s| then s else Erase(s, p) + [x]
  {
  }
}
