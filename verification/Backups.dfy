/** Neighbour backups: which server keeps which neighbour's parameters, and how a server grows
    into its predecessors' segments from them. */
module Backups {
  import opened Circle
  import opened Partitioning

  /** The slot in which server `local` keeps the parameters that `sender` sent it. */
  function BackupSlot(local: int, sender: int, n: int): (slot: int)
    requires 0 <= local < n && 0 <= sender < n
    ensures 0 <= slot < n
    ensures slot == if sender < local then local - 1 - sender else local - 1 - sender + n
  {
    ModUnique(local - 1 - sender + n, n, if sender < local then 1 else 0,
              if sender < local then local - 1 - sender else local - 1 - sender + n);
    (local - 1 - sender + n) % n
  }

  /** The j-th backup target replies into slot j - 1 and is the only server that does. */
  lemma SlotInvertsTarget(local: int, j: int, n: int, sender: int)
    requires 0 <= local < n && 1 <= j < n && 0 <= sender < n
    ensures BackupSlot(local, sender, n) == j - 1 <==> sender == Predecessor(local, j, n)
    ensures Predecessor(local, j, n) != local
  {
  }

  /** ExtendParameter from backup `from` on: predecessors' parameters are put in front until the
      vector has the wanted length. */
  function Extend(parameters: seq<real>, backups: seq<seq<real>>, length: int, from: nat, size: nat): seq<real>
    requires from <= size <= |backups|
    decreases size - from
  {
    if from == size || |parameters| == length then parameters
    else Extend(backups[from] + parameters, backups, length, from + 1, size)
  }

  /** The m nearest predecessors' backups, farthest first. */
  function Joined(backups: seq<seq<real>>, m: nat): seq<real>
    requires m <= |backups|
  {
    if m == 0 then [] else backups[m - 1] + Joined(backups, m - 1)
  }

  /** If the first m backups fill the vector up to its wanted length, the loop stops with exactly
      these in front, even when some of them are empty. */
  lemma {:induction false} ExtendJoins(parameters: seq<real>, backups: seq<seq<real>>, length: int, from: nat, m: nat, size: nat)
    requires from <= m <= size <= |backups|
    requires |Joined(backups, m)| + |parameters| == length
    ensures Extend(Joined(backups, from) + parameters, backups, length, from, size) == Joined(backups, m) + parameters
    decreases m - from
  {
    JoinedGrows(backups, from, m);
    if from < m {
      var longer := Joined(backups, from) + parameters;
      if |longer| == length {
        assert |Joined(backups, from)| == |Joined(backups, m)|;
        JoinedGrowsEmpty(backups, from, m);
      } else {
        assert backups[from] + longer == Joined(backups, from + 1) + parameters;
        ExtendJoins(parameters, backups, length, from + 1, m, size);
      }
    }
  }

  lemma {:induction false} JoinedGrows(backups: seq<seq<real>>, from: nat, m: nat)
    requires from <= m <= |backups|
    ensures |Joined(backups, from)| <= |Joined(backups, m)|
  {
    if from < m {
      JoinedGrows(backups, from, m - 1);
    }
  }

  lemma {:induction false} JoinedGrowsEmpty(backups: seq<seq<real>>, from: nat, m: nat)
    requires from <= m <= |backups| && |Joined(backups, from)| == |Joined(backups, m)|
    ensures Joined(backups, from) == Joined(backups, m)
  {
    if from < m {
      JoinedGrows(backups, from, m - 1);
      JoinedGrowsEmpty(backups, from, m - 1);
      assert backups[m - 1] == [];
    }
  }

  /** The segments of the predecessors j+1, ..., m of server i together. */
  function PredecessorSpan(cuts: seq<int>, range: int, i: int, j: nat, m: nat): int
    requires ValidCuts(cuts, range) && 0 <= i < |cuts| && j <= m < |cuts|
  {
    if j == m then 0
    else PredecessorSpan(cuts, range, i, j, m - 1) + SegmentLength(cuts, range, Predecessor(i, m, |cuts|))
  }

  lemma {:induction false} SpanIsNotNegative(cuts: seq<int>, range: int, i: int, j: nat, m: nat)
    requires ValidCuts(cuts, range) && 0 <= i < |cuts| && j <= m < |cuts|
    ensures PredecessorSpan(cuts, range, i, j, m) >= 0
  {
    if j < m {
      SpanIsNotNegative(cuts, range, i, j, m - 1);
    }
  }

  lemma {:induction false} SpanSplits(cuts: seq<int>, range: int, i: int, j: nat, k: nat, m: nat)
    requires ValidCuts(cuts, range) && 0 <= i < |cuts| && j <= k <= m < |cuts|
    ensures PredecessorSpan(cuts, range, i, j, m)
            == PredecessorSpan(cuts, range, i, j, k) + PredecessorSpan(cuts, range, i, k, m)
  {
    if k < m {
      SpanSplits(cuts, range, i, j, k, m - 1);
    }
  }

  /** Consecutive segments shorter than the circle span the distance between their ends. */
  lemma {:induction false} SpanIsDistance(cuts: seq<int>, range: int, i: int, j: nat, m: nat)
    requires ValidCuts(cuts, range) && 0 <= i < |cuts| && j <= m < |cuts|
    requires PredecessorSpan(cuts, range, i, j, m) < range
    ensures PredecessorSpan(cuts, range, i, j, m)
            == Distance(cuts[Predecessor(i, m, |cuts|)], cuts[Predecessor(i, j, |cuts|)], range)
  {
    if j < m {
      SpanIsNotNegative(cuts, range, i, j, m - 1);
      SpanIsDistance(cuts, range, i, j, m - 1);
      var n := |cuts|;
      assert Next(Predecessor(i, m, n), n) == Predecessor(i, m - 1, n);
      DistanceAdds(cuts[Predecessor(i, m, n)], cuts[Predecessor(i, m - 1, n)], cuts[Predecessor(i, j, n)], range);
    }
  }

  /** Each of the first m slots holds the full segment of its server. */
  predicate FullBackups(cuts: seq<int>, range: int, i: int, backups: seq<seq<real>>, m: nat)
    requires ValidCuts(cuts, range) && 0 <= i < |cuts| && m < |cuts|
  {
    m <= |backups| && forall j :: 1 <= j <= m ==>
      |backups[j - 1]| == SegmentLength(cuts, range, Predecessor(i, j, |cuts|))
  }

  lemma {:induction false} JoinedLength(cuts: seq<int>, range: int, i: int, backups: seq<seq<real>>, m: nat)
    requires ValidCuts(cuts, range) && 0 <= i < |cuts| && m < |cuts|
    requires FullBackups(cuts, range, i, backups, m)
    ensures |Joined(backups, m)| == PredecessorSpan(cuts, range, i, 0, m)
  {
    if m > 0 {
      JoinedLength(cuts, range, i, backups, m - 1);
    }
  }

  /** Where slot j - 1 ends up in the extended vector. */
  lemma {:induction false} JoinedHoldsBackup(cuts: seq<int>, range: int, i: int, backups: seq<seq<real>>, m: nat, j: nat, x: nat)
    requires ValidCuts(cuts, range) && 0 <= i < |cuts| && m < |cuts| && 1 <= j <= m
    requires FullBackups(cuts, range, i, backups, m) && x < |backups[j - 1]|
    ensures var at := PredecessorSpan(cuts, range, i, j, m) + x;
            0 <= at < |Joined(backups, m)| && Joined(backups, m)[at] == backups[j - 1][x]
  {
    SpanIsNotNegative(cuts, range, i, j, m);
    if j < m {
      JoinedHoldsBackup(cuts, range, i, backups, m - 1, j, x);
    }
  }

  /** The slot of a key of the j-th predecessor, seen from the m-th predecessor's start. */
  lemma SlotAfterTakeover(cuts: seq<int>, range: int, i: int, j: nat, m: nat, x: nat)
    requires ValidCuts(cuts, range) && 0 <= i < |cuts| && j <= m < |cuts|
    requires PredecessorSpan(cuts, range, i, 0, m) + SegmentLength(cuts, range, i) < range
    requires x < SegmentLength(cuts, range, Predecessor(i, j, |cuts|))
    ensures var key := KeyAt(cuts, range, Predecessor(i, j, |cuts|), x);
            LocalIndex(cuts[Predecessor(i, m, |cuts|)], range, key) == PredecessorSpan(cuts, range, i, j, m) + x
  {
    hide ValidCuts;
    SpanSplits(cuts, range, i, 0, j, m);
    SpanIsNotNegative(cuts, range, i, 0, j);
    if j > 0 {
      SpanSplits(cuts, range, i, 0, j - 1, j);
      SpanIsNotNegative(cuts, range, i, 0, j - 1);
    }
    SpanIsDistance(cuts, range, i, j, m);
    SlotShifts(cuts, range, Predecessor(i, m, |cuts|), Predecessor(i, j, |cuts|), x);
  }

  /** Counting slots from an earlier start moves them up by the distance between the starts. */
  lemma SlotShifts(cuts: seq<int>, range: int, p: int, q: int, x: nat)
    requires ValidCuts(cuts, range) && 0 <= p < |cuts| && 0 <= q < |cuts|
    requires Distance(cuts[p], cuts[q], range) + x < range
    ensures LocalIndex(cuts[p], range, KeyAt(cuts, range, q, x)) == Distance(cuts[p], cuts[q], range) + x
  {
  }

  /** What a takeover promises: the vector has the new length, each adopted key reads its backed-up
      value and each old key its old value. */
  predicate Preserved(cuts: seq<int>, range: int, i: int, m: nat, parameters: seq<real>, backups: seq<seq<real>>,
                      newLength: int, extended: seq<real>)
    requires ValidCuts(cuts, range) && 0 <= i < |cuts| && m < |cuts| && m <= |backups|
  {
    var newStart := cuts[Predecessor(i, m, |cuts|)];
    && |extended| == newLength
    && (forall x :: 0 <= x < |parameters| ==>
          var at := LocalIndex(newStart, range, KeyAt(cuts, range, i, x));
          0 <= at < newLength && extended[at] == parameters[x])
    && (forall j, x :: 1 <= j <= m && 0 <= x < |backups[j - 1]| ==>
          var at := LocalIndex(newStart, range, KeyAt(cuts, range, Predecessor(i, j, |cuts|), x));
          0 <= at < newLength && extended[at] == backups[j - 1][x])
  }

  /** The length that server i computes when its start becomes that of its m-th predecessor. */
  function TakenLength(cuts: seq<int>, range: int, i: int, m: nat): int
    requires ValidCuts(cuts, range) && 0 <= i < |cuts| && m < |cuts|
  {
    Distance(cuts[Predecessor(i, m, |cuts|)], cuts[Next(i, |cuts|)], range)
  }

  lemma NothingJoined(parameters: seq<real>, backups: seq<seq<real>>)
    ensures Joined(backups, 0) + parameters == parameters
  {
  }

  /** When server i takes over the segments of its m nearest predecessors, whose parameters it has
      backed up, it ends up with exactly its new number of parameters, all in their places. */
  lemma TakeoverKeepsValues(cuts: seq<int>, range: int, i: int, m: nat, parameters: seq<real>, backups: seq<seq<real>>,
                            size: nat)
    requires ValidCuts(cuts, range) && 0 <= i < |cuts| && m < |cuts|
    requires |parameters| == SegmentLength(cuts, range, i)
    requires m <= size <= |backups| && FullBackups(cuts, range, i, backups, m)
    requires PredecessorSpan(cuts, range, i, 0, m) + SegmentLength(cuts, range, i) < range
    ensures Preserved(cuts, range, i, m, parameters, backups, TakenLength(cuts, range, i, m),
                      Extend(parameters, backups, TakenLength(cuts, range, i, m), 0, size))
  {
    hide Extend, Joined, PredecessorSpan, KeyAt, LocalIndex;
    var n := |cuts|;
    var newStart := cuts[Predecessor(i, m, n)];
    var newLength := TakenLength(cuts, range, i, m);
    SpanIsNotNegative(cuts, range, i, 0, m);
    SpanIsDistance(cuts, range, i, 0, m);
    DistanceAdds(newStart, cuts[i], cuts[Next(i, n)], range);
    JoinedLength(cuts, range, i, backups, m);
    ExtendJoins(parameters, backups, newLength, 0, m, size);
    NothingJoined(parameters, backups);
    var extended := Joined(backups, m) + parameters;
    forall x | 0 <= x < |parameters|
      ensures var at := LocalIndex(newStart, range, KeyAt(cuts, range, i, x));
              0 <= at < newLength && extended[at] == parameters[x]
    {
      SlotAfterTakeover(cuts, range, i, 0, m, x);
    }
    forall j, x | 1 <= j <= m && 0 <= x < |backups[j - 1]|
      ensures var at := LocalIndex(newStart, range, KeyAt(cuts, range, Predecessor(i, j, n), x));
              0 <= at < newLength && extended[at] == backups[j - 1][x]
    {
      SlotAfterTakeover(cuts, range, i, j, m, x);
      JoinedHoldsBackup(cuts, range, i, backups, m, j, x);
    }
  }

  /** The segments of m predecessors from the cut points: down to the first server, and for the rest
      around the circle. */
  lemma {:induction false} SpanFromCuts(cuts: seq<int>, range: int, i: int, m: nat)
    requires ValidCuts(cuts, range) && 0 <= i < |cuts| && m < |cuts|
    ensures var n := |cuts|;
            PredecessorSpan(cuts, range, i, 0, m)
            == if m <= i then cuts[i] - cuts[i - m]
               else cuts[i] - cuts[0] + SegmentLength(cuts, range, n - 1) + cuts[n - 1] - cuts[i - m + n]
  {
    if m > 0 {
      SpanFromCuts(cuts, range, i, m - 1);
    }
  }

  /** Different servers together never hold more than the circle. */
  lemma SpanFitsCircle(cuts: seq<int>, range: int, i: int, m: nat)
    requires ValidCuts(cuts, range) && 0 <= i < |cuts| && m < |cuts|
    ensures 0 <= PredecessorSpan(cuts, range, i, 0, m) + SegmentLength(cuts, range, i) <= range
  {
    SpanIsNotNegative(cuts, range, i, 0, m);
    SpanFromCuts(cuts, range, i, m);
  }

  /** Taking over the whole circle is the case that the modulus loses: the new length is 0. */
  lemma WholeCircleHasNoLength(cuts: seq<int>, range: int, i: int, m: nat)
    requires ValidCuts(cuts, range) && 0 <= i < |cuts| && m < |cuts|
    requires PredecessorSpan(cuts, range, i, 0, m) + SegmentLength(cuts, range, i) == range
    ensures TakenLength(cuts, range, i, m) == 0
  {
    SpanFromCuts(cuts, range, i, m);
  }

  lemma {:induction false} ExtendOnlyGrows(parameters: seq<real>, backups: seq<seq<real>>, length: int, from: nat, size: nat)
    requires from <= size <= |backups|
    ensures |Extend(parameters, backups, length, from, size)| >= |parameters|
    decreases size - from
  {
    if from < size && |parameters| != length {
      ExtendOnlyGrows(backups[from] + parameters, backups, length, from + 1, size);
    }
  }

  lemma {:induction false} SomeBackupIsNotEmpty(cuts: seq<int>, range: int, i: int, backups: seq<seq<real>>, m: nat) returns (j: nat)
    requires ValidCuts(cuts, range) && 0 <= i < |cuts| && m < |cuts| && FullBackups(cuts, range, i, backups, m)
    requires PredecessorSpan(cuts, range, i, 0, m) > 0
    ensures 1 <= j <= m && |backups[j - 1]| > 0
  {
    if |backups[m - 1]| > 0 {
      j := m;
    } else {
      j := SomeBackupIsNotEmpty(cuts, range, i, backups, m - 1);
    }
  }

  /** A takeover preserves contents if and only if it leaves some of the circle to others. */
  lemma TakeoverKeepsValuesIff(cuts: seq<int>, range: int, i: int, m: nat, parameters: seq<real>, backups: seq<seq<real>>,
                               size: nat)
    requires ValidCuts(cuts, range) && 0 <= i < |cuts| && m < |cuts|
    requires |parameters| == SegmentLength(cuts, range, i)
    requires m <= size <= |backups| && FullBackups(cuts, range, i, backups, m)
    ensures Preserved(cuts, range, i, m, parameters, backups, TakenLength(cuts, range, i, m),
                      Extend(parameters, backups, TakenLength(cuts, range, i, m), 0, size))
            <==> PredecessorSpan(cuts, range, i, 0, m) + SegmentLength(cuts, range, i) < range
  {
    SpanFitsCircle(cuts, range, i, m);
    if PredecessorSpan(cuts, range, i, 0, m) + SegmentLength(cuts, range, i) < range {
      TakeoverKeepsValues(cuts, range, i, m, parameters, backups, size);
    } else {
      WholeCircleHasNoLength(cuts, range, i, m);
      if |parameters| > 0 {
        ExtendOnlyGrows(parameters, backups, 0, 0, size);
      } else {
        var j := SomeBackupIsNotEmpty(cuts, range, i, backups, m);
        var at := LocalIndex(cuts[Predecessor(i, m, |cuts|)], range, KeyAt(cuts, range, Predecessor(i, j, |cuts|), 0));
        assert !(0 <= at < 0) && backups[j - 1][0] == backups[j - 1][0];
      }
    }
  }
}
