/** Consistent hashing: which server owns a key, and at which slot it keeps it. */
module Partitioning {
  import opened Circle
  import opened Search

  /** The cut points of at least one server, in order, on the circle [0, range). */
  predicate ValidCuts(cuts: seq<int>, range: int) {
    |cuts| >= 1 && Sorted(cuts) && forall i :: 0 <= i < |cuts| ==> 0 <= cuts[i] < range
  }

  /** The agent's view: the server index a key belongs to, -1 when it is off the circle. */
  function GetServer(cuts: seq<int>, range: int, key: int): int
    requires |cuts| >= 1
  {
    if key < 0 || range <= key then -1
    else if key < cuts[0] then |cuts| - 1
    else LowerBound(cuts, 0, key + 1) - 1
  }

  /** The server's view: how many keys it holds and where it keeps each of them. */
  function SegmentLength(cuts: seq<int>, range: int, i: int): int
    requires ValidCuts(cuts, range) && 0 <= i < |cuts|
  {
    Distance(cuts[i], cuts[Next(i, |cuts|)], range)
  }

  function LocalIndex(startKey: int, range: int, key: int): int {
    if key - startKey < 0 then key - startKey + range else key - startKey
  }

  /** The key kept at slot x of server i. */
  function KeyAt(cuts: seq<int>, range: int, i: int, x: int): int
    requires 0 <= i < |cuts|
  {
    if cuts[i] + x < range then cuts[i] + x else cuts[i] + x - range
  }

  /** The owner is the server with the last cut at or below the key; keys before every cut
      wrap around to the last server. */
  lemma OwnerHasLastCut(cuts: seq<int>, range: int, key: int)
    requires ValidCuts(cuts, range)
    ensures (0 <= key < range) <==> GetServer(cuts, range, key) != -1
    ensures 0 <= key < range ==>
              var o := GetServer(cuts, range, key);
              && 0 <= o < |cuts|
              && if key < cuts[0] then o == |cuts| - 1
                 else cuts[o] <= key && forall i :: o < i < |cuts| ==> key < cuts[i]
  {
    if 0 <= key < range && cuts[0] <= key {
      var r := LowerBound(cuts, 0, key + 1);
      assert r > 0;
      assert cuts[r - 1] <= key;
    }
  }

  /** Every key has a slot at its owner, and that slot leads back to the key. */
  lemma KeyHasSlot(cuts: seq<int>, range: int, key: int)
    requires ValidCuts(cuts, range) && cuts[0] != cuts[|cuts| - 1]
    requires 0 <= key < range
    ensures var o := GetServer(cuts, range, key);
            && 0 <= o < |cuts|
            && 0 <= LocalIndex(cuts[o], range, key) < SegmentLength(cuts, range, o)
            && KeyAt(cuts, range, o, LocalIndex(cuts[o], range, key)) == key
  {
    OwnerHasLastCut(cuts, range, key);
  }

  /** Every slot of every server holds a key that the agents send to that server and slot. */
  lemma SlotHasKey(cuts: seq<int>, range: int, i: int, x: int)
    requires ValidCuts(cuts, range) && 0 <= i < |cuts|
    requires 0 <= x < SegmentLength(cuts, range, i)
    ensures var key := KeyAt(cuts, range, i, x);
            && 0 <= key < range
            && GetServer(cuts, range, key) == i
            && LocalIndex(cuts[i], range, key) == x
  {
    var key := KeyAt(cuts, range, i, x);
    OwnerHasLastCut(cuts, range, key);
  }

  /** Ownership is a bijection: the agents' owner and the server's wrapped index of a key are (i, x)
      exactly when the key is the one that server i keeps at its slot x. */
  lemma KeysAndSlotsPairUp(cuts: seq<int>, range: int, key: int, i: int, x: int)
    requires ValidCuts(cuts, range) && cuts[0] != cuts[|cuts| - 1] && 0 <= i < |cuts|
    ensures 0 <= key < range && GetServer(cuts, range, key) == i && LocalIndex(cuts[i], range, key) == x
            <==> 0 <= x < SegmentLength(cuts, range, i) && KeyAt(cuts, range, i, x) == key
  {
    if 0 <= key < range {
      KeyHasSlot(cuts, range, key);
    }
    if 0 <= x < SegmentLength(cuts, range, i) {
      SlotHasKey(cuts, range, i, x);
    }
  }

  /** The number of keys held by the first m servers together. */
  function TotalLength(cuts: seq<int>, range: int, m: nat): int
    requires ValidCuts(cuts, range) && m <= |cuts|
  {
    if m == 0 then 0 else TotalLength(cuts, range, m - 1) + SegmentLength(cuts, range, m - 1)
  }

  lemma {:induction false} TotalLengthIsSpan(cuts: seq<int>, range: int, m: nat)
    requires ValidCuts(cuts, range) && m < |cuts|
    ensures TotalLength(cuts, range, m) == cuts[m] - cuts[0]
  {
    if m > 0 {
      TotalLengthIsSpan(cuts, range, m - 1);
    }
  }

  /** The servers hold the whole circle exactly when two cuts differ. With one server, or all
      cuts equal, the modulus makes every segment empty although every key has an owner. */
  lemma SegmentsCoverIff(cuts: seq<int>, range: int)
    requires ValidCuts(cuts, range)
    ensures TotalLength(cuts, range, |cuts|) == range <==> cuts[0] != cuts[|cuts| - 1]
    ensures cuts[0] == cuts[|cuts| - 1] ==>
              forall i :: 0 <= i < |cuts| ==> SegmentLength(cuts, range, i) == 0
  {
    TotalLengthIsSpan(cuts, range, |cuts| - 1);
    if cuts[0] == cuts[|cuts| - 1] {
      forall i | 0 <= i < |cuts|
        ensures SegmentLength(cuts, range, i) == 0
      {
        assert cuts[0] <= cuts[i] <= cuts[|cuts| - 1];
      }
    }
  }

  /** The plain offset key - start, used when updates are merged and blocked pulls are answered,
      is a slot of the owner exactly when the key did not wrap around. */
  lemma PlainOffsetIsSlotIff(cuts: seq<int>, range: int, key: int)
    requires ValidCuts(cuts, range) && cuts[0] != cuts[|cuts| - 1]
    requires 0 <= key < range
    ensures var o := GetServer(cuts, range, key);
            && 0 <= o < |cuts|
            && (0 <= key - cuts[o] < SegmentLength(cuts, range, o) <==> cuts[0] <= key)
  {
    KeyHasSlot(cuts, range, key);
    OwnerHasLastCut(cuts, range, key);
  }

  /** Where the block of keys that starts at `start` ends, and which server it goes to. */
  function NextEnd(cuts: seq<int>, range: int, keys: seq<int>, start: nat): nat
    requires |cuts| >= 1 && start < |keys|
    requires 0 <= keys[start] < range
  {
    if keys[start] < cuts[0] then
      LowerBound(keys, start, cuts[0])
    else
      var server := GetServer(cuts, range, keys[start]);
      if server == |cuts| - 1 then |keys| else LowerBound(keys, start, cuts[server + 1])
  }

  /** The agent's copy of the cut points. */
  class Partition {
    var keyRange: int
    var serverNum: int
    var partVec: seq<int>

    ghost predicate Valid()
      reads this
    {
      ValidCuts(partVec, keyRange) && serverNum == |partVec|
    }

    constructor ()
      ensures partVec == []
    {
      keyRange, serverNum, partVec := 0, 0, [];
    }

    method Initialize(keyRange: int, serverNum: nat, cuts: array<int>)
      requires serverNum <= cuts.Length
      modifies this
      ensures this.keyRange == keyRange && this.serverNum == serverNum
      ensures partVec == cuts[..serverNum]
    {
      this.keyRange := keyRange;
      this.serverNum := serverNum;
      partVec := [];
      for i := 0 to serverNum
        invariant partVec == cuts[..i]
        invariant this.keyRange == keyRange && this.serverNum == serverNum
      {
        partVec := partVec + [cuts[i]];
      }
    }

    method Finalize()
      modifies `partVec
      ensures partVec == []
    {
      partVec := [];
    }

    method GetServerByKey(key: int) returns (server: int)
      requires Valid()
      ensures server == GetServer(partVec, keyRange, key)
    {
      if key < 0 || key >= keyRange {
        return -1;
      }
      if key < partVec[0] {
        return serverNum - 1;
      }
      var upper := BinarySearch(partVec, 0, key + 1);
      return upper - 1;
    }

    method NextEnding(keys: seq<int>, start: nat) returns (end: nat, server: int)
      requires Valid() && Sorted(keys)
      requires start < |keys| && 0 <= keys[start] < keyRange
      ensures end == NextEnd(partVec, keyRange, keys, start)
      ensures server == GetServer(partVec, keyRange, keys[start])
    {
      server := GetServerByKey(keys[start]);
      OwnerHasLastCut(partVec, keyRange, keys[start]);
      if keys[start] < partVec[0] {
        end := BinarySearch(keys, start, partVec[0]);
      } else if server == serverNum - 1 {
        end := |keys|;
      } else {
        end := BinarySearch(keys, start, partVec[server + 1]);
      }
    }
  }
}
