/** Splitting a sorted key array into one block per server. */
module Blocks {
  import opened Messages
  import opened Partitioning
  import opened Search
  import opened Sequences

  /** keys[from..to) go to `server`. */
  datatype KeyBlock = KeyBlock(server: int, from: nat, to: nat)

  predicate InRange(keys: seq<int>, range: int) {
    forall i :: 0 <= i < |keys| ==> 0 <= keys[i] < range
  }

  /** One block never stops at its own start, has a single owner, and hands over to a later
      server; only keys before the first cut are followed by an earlier one. */
  lemma NextEndIsBlock(cuts: seq<int>, range: int, keys: seq<int>, start: nat)
    requires ValidCuts(cuts, range) && Sorted(keys) && InRange(keys, range) && start < |keys|
    ensures var end := NextEnd(cuts, range, keys, start);
            var server := GetServer(cuts, range, keys[start]);
            && start < end <= |keys|
            && 0 <= server < |cuts|
            && (forall i :: start <= i < end ==> GetServer(cuts, range, keys[i]) == server)
            && (end < |keys| ==>
                  && cuts[0] <= keys[end]
                  && (cuts[0] <= keys[start] ==> server < GetServer(cuts, range, keys[end]))
                  && (keys[start] < cuts[0] ==> server == |cuts| - 1))
  {
    var end := NextEnd(cuts, range, keys, start);
    OwnerHasLastCut(cuts, range, keys[start]);
    if end < |keys| {
      OwnerHasLastCut(cuts, range, keys[end]);
    }
    forall i | start <= i < end
      ensures GetServer(cuts, range, keys[i]) == GetServer(cuts, range, keys[start])
    {
      OwnerHasLastCut(cuts, range, keys[i]);
    }
  }

  /** The blocks that the loops of Push and Pull send for keys[start..]. */
  function Split(cuts: seq<int>, range: int, keys: seq<int>, start: nat): (blocks: seq<KeyBlock>)
    requires ValidCuts(cuts, range) && Sorted(keys) && InRange(keys, range) && start <= |keys|
    decreases |keys| - start
  {
    if start == |keys| then
      []
    else
      NextEndIsBlock(cuts, range, keys, start);
      var end := NextEnd(cuts, range, keys, start);
      [KeyBlock(GetServer(cuts, range, keys[start]), start, end)] + Split(cuts, range, keys, end)
  }

  /** Non-empty blocks, end to end from `start` to `stop`. */
  predicate Tiles(blocks: seq<KeyBlock>, start: nat, stop: nat) {
    && (blocks == [] ==> start == stop)
    && (blocks != [] ==> blocks[0].from == start && blocks[|blocks| - 1].to == stop)
    && (forall i :: 0 <= i < |blocks| ==> blocks[i].from < blocks[i].to <= stop)
    && (forall i :: 0 < i < |blocks| ==> blocks[i].from == blocks[i - 1].to)
  }

  predicate SingleOwner(cuts: seq<int>, range: int, keys: seq<int>, b: KeyBlock)
    requires |cuts| >= 1
  {
    b.to <= |keys| && forall i :: b.from <= i < b.to ==> GetServer(cuts, range, keys[i]) == b.server
  }

  predicate Increasing(blocks: seq<KeyBlock>) {
    forall i, j :: 0 <= i < j < |blocks| ==> blocks[i].server < blocks[j].server
  }

  lemma OneMoreTile(b: KeyBlock, rest: seq<KeyBlock>, stop: nat)
    requires Tiles(rest, b.to, stop) && b.from < b.to <= stop
    ensures Tiles([b] + rest, b.from, stop)
  {
    var blocks := [b] + rest;
    assert forall i :: 0 < i < |blocks| ==> blocks[i] == rest[i - 1];
    assert rest != [] ==> blocks[|blocks| - 1] == rest[|rest| - 1];
  }

  lemma SplitUnfolds(cuts: seq<int>, range: int, keys: seq<int>, start: nat)
    requires ValidCuts(cuts, range) && Sorted(keys) && InRange(keys, range) && start < |keys|
    ensures var end := NextEnd(cuts, range, keys, start);
            && start < end <= |keys|
            && Split(cuts, range, keys, start)
               == [KeyBlock(GetServer(cuts, range, keys[start]), start, end)] + Split(cuts, range, keys, end)
  {
    hide GetServer, NextEnd;
    NextEndIsBlock(cuts, range, keys, start);
  }

  lemma {:induction false} SplitTiles(cuts: seq<int>, range: int, keys: seq<int>, start: nat)
    requires ValidCuts(cuts, range) && Sorted(keys) && InRange(keys, range) && start <= |keys|
    ensures var blocks := Split(cuts, range, keys, start);
            && Tiles(blocks, start, |keys|)
            && forall i :: 0 <= i < |blocks| ==>
                 0 <= blocks[i].server < |cuts| && SingleOwner(cuts, range, keys, blocks[i])
    decreases |keys| - start
  {
    hide GetServer, NextEnd, Split, Tiles;
    if start == |keys| {
      NothingToSplit(cuts, range, keys);
    } else {
      NextEndIsBlock(cuts, range, keys, start);
      var end := NextEnd(cuts, range, keys, start);
      SplitTiles(cuts, range, keys, end);
      SplitUnfolds(cuts, range, keys, start);
      OneMoreTile(KeyBlock(GetServer(cuts, range, keys[start]), start, end), Split(cuts, range, keys, end), |keys|);
    }
  }

  lemma NothingToSplit(cuts: seq<int>, range: int, keys: seq<int>)
    requires ValidCuts(cuts, range) && Sorted(keys) && InRange(keys, range)
    ensures Split(cuts, range, keys, |keys|) == [] && Tiles([], |keys|, |keys|)
  {
  }

  /** Blocks that lie within n keys and go to existing servers. */
  predicate Fits(blocks: seq<KeyBlock>, n: nat, servers: nat) {
    forall i :: 0 <= i < |blocks| ==> blocks[i].from <= blocks[i].to <= n && 0 <= blocks[i].server < servers
  }

  /** One iteration of the loops of Push and Pull takes the first of the remaining blocks. */
  lemma SplitStep(cuts: seq<int>, range: int, keys: seq<int>, start: nat)
    requires ValidCuts(cuts, range) && Sorted(keys) && InRange(keys, range) && start < |keys|
    ensures var end := NextEnd(cuts, range, keys, start);
            var server := GetServer(cuts, range, keys[start]);
            && start < end <= |keys| && 0 <= server < |cuts|
            && Split(cuts, range, keys, start) == [KeyBlock(server, start, end)] + Split(cuts, range, keys, end)
            && Fits(Split(cuts, range, keys, start), |keys|, |cuts|)
            && Fits(Split(cuts, range, keys, end), |keys|, |cuts|)
  {
    NextEndIsBlock(cuts, range, keys, start);
    SplitTiles(cuts, range, keys, start);
    SplitTiles(cuts, range, keys, NextEnd(cuts, range, keys, start));
  }

  /** From the first cut on, every block goes to a later server than the block before it. */
  lemma {:induction false} ServersIncrease(cuts: seq<int>, range: int, keys: seq<int>, start: nat)
    requires ValidCuts(cuts, range) && Sorted(keys) && InRange(keys, range) && start < |keys|
    requires cuts[0] <= keys[start]
    ensures var blocks := Split(cuts, range, keys, start);
            && Increasing(blocks)
            && blocks != [] && blocks[0].server == GetServer(cuts, range, keys[start])
            && |blocks| <= |cuts| - blocks[0].server
    decreases |keys| - start
  {
    NextEndIsBlock(cuts, range, keys, start);
    var end := NextEnd(cuts, range, keys, start);
    if end < |keys| {
      ServersIncrease(cuts, range, keys, end);
    }
  }

  /** At most one block per server and one more; the extra one is the wrapped block, which goes to
      the last server first and may be joined by that server's own block at the very end. */
  lemma SplitShape(cuts: seq<int>, range: int, keys: seq<int>)
    requires ValidCuts(cuts, range) && Sorted(keys) && InRange(keys, range)
    ensures var blocks := Split(cuts, range, keys, 0);
            && |blocks| <= |cuts| + 1
            && (forall i, j :: 0 <= i < j < |blocks| && blocks[i].server == blocks[j].server ==>
                  && i == 0 && j == |blocks| - 1
                  && blocks[i].server == |cuts| - 1
                  && keys[0] < cuts[0])
  {
    if keys != [] {
      if cuts[0] <= keys[0] {
        ServersIncrease(cuts, range, keys, 0);
      } else {
        SplitTiles(cuts, range, keys, 0);
        NextEndIsBlock(cuts, range, keys, 0);
        OwnerHasLastCut(cuts, range, keys[0]);
        var end := NextEnd(cuts, range, keys, 0);
        if end < |keys| {
          ServersIncrease(cuts, range, keys, end);
          SplitTiles(cuts, range, keys, end);
          var rest := Split(cuts, range, keys, end);
          assert forall i, j :: 0 <= i < j < |rest| ==> rest[i].server < rest[j].server < |cuts|;
        }
      }
    }
  }

  predicate SomeServerTwice(blocks: seq<KeyBlock>) {
    exists i, j :: 0 <= i < j < |blocks| && blocks[i].server == blocks[j].server
  }

  /** The first and the last block, and the owners of the keys at their ends. */
  lemma SplitEnds(cuts: seq<int>, range: int, keys: seq<int>)
    requires ValidCuts(cuts, range) && Sorted(keys) && InRange(keys, range) && keys != []
    ensures var blocks := Split(cuts, range, keys, 0);
            && blocks != []
            && blocks[0].server == GetServer(cuts, range, keys[0])
            && blocks[|blocks| - 1].server == GetServer(cuts, range, keys[|keys| - 1])
            && (|blocks| > 1 ==> cuts[0] <= keys[|keys| - 1])
            && (|blocks| == 1 ==> (keys[0] < cuts[0] ==> keys[|keys| - 1] < cuts[0]))
  {
    hide GetServer;
    var blocks := Split(cuts, range, keys, 0);
    var last := |blocks| - 1;
    SplitTiles(cuts, range, keys, 0);
    NextEndIsBlock(cuts, range, keys, 0);
    assert GetServer(cuts, range, keys[blocks[0].from]) == blocks[0].server;
    assert blocks[last].from <= |keys| - 1 < blocks[last].to;
    assert GetServer(cuts, range, keys[|keys| - 1]) == blocks[last].server;
    assert last > 0 ==> cuts[0] <= keys[blocks[0].to] <= keys[|keys| - 1];
  }

  /** Exactly when one request spans the whole circle does the last server get two blocks. */
  lemma ServerTwiceIff(cuts: seq<int>, range: int, keys: seq<int>)
    requires ValidCuts(cuts, range) && Sorted(keys) && InRange(keys, range) && keys != []
    ensures SomeServerTwice(Split(cuts, range, keys, 0))
            <==> keys[0] < cuts[0] && cuts[|cuts| - 1] <= keys[|keys| - 1]
  {
    hide GetServer, Split;
    var blocks := Split(cuts, range, keys, 0);
    SplitShape(cuts, range, keys);
    SplitEnds(cuts, range, keys);
    OwnerHasLastCut(cuts, range, keys[0]);
    OwnerHasLastCut(cuts, range, keys[|keys| - 1]);
    if keys[0] < cuts[0] && cuts[|cuts| - 1] <= keys[|keys| - 1] {
      assert |blocks| > 1 && blocks[0].server == blocks[|blocks| - 1].server;
    }
  }

  /** What a server receives: the contents of the blocks addressed to it, in sending order. */
  function Delivered<T>(blocks: seq<KeyBlock>, items: seq<T>, server: int): (received: seq<T>)
    requires forall i :: 0 <= i < |blocks| ==> blocks[i].from <= blocks[i].to <= |items|
  {
    if blocks == [] then
      []
    else
      (if blocks[0].server == server then items[blocks[0].from..blocks[0].to] else [])
      + Delivered(blocks[1..], items, server)
  }

  /** The pairs of a list whose key a server owns, in list order. */
  function Owned(cuts: seq<int>, range: int, pairs: KeyValueList, server: int): (mine: KeyValueList)
    requires |cuts| >= 1
  {
    if pairs == [] then
      []
    else
      var last := |pairs| - 1;
      Owned(cuts, range, pairs[..last], server)
      + if GetServer(cuts, range, pairs[last].0) == server then [pairs[last]] else []
  }

  lemma {:induction false} OwnedConcat(cuts: seq<int>, range: int, a: KeyValueList, b: KeyValueList, server: int)
    requires |cuts| >= 1
    ensures Owned(cuts, range, a + b, server)
            == Owned(cuts, range, a, server) + Owned(cuts, range, b, server)
  {
    if b == [] {
      assert a + b == a;
    } else {
      OwnedConcat(cuts, range, a, b[..|b| - 1], server);
      assert (a + b)[..|a + b| - 1] == a + b[..|b| - 1];
    }
  }

  lemma {:induction false} OwnedUniform(cuts: seq<int>, range: int, pairs: KeyValueList, owner: int, server: int)
    requires |cuts| >= 1
    requires forall i :: 0 <= i < |pairs| ==> GetServer(cuts, range, pairs[i].0) == owner
    ensures Owned(cuts, range, pairs, server) == if owner == server then pairs else []
  {
    if pairs != [] {
      OwnedUniform(cuts, range, pairs[..|pairs| - 1], owner, server);
    }
  }

  lemma OwnedBlock(cuts: seq<int>, range: int, pairs: KeyValueList, b: KeyBlock, server: int)
    requires |cuts| >= 1 && b.from <= b.to <= |pairs| && SingleOwner(cuts, range, KeysOf(pairs), b)
    ensures Owned(cuts, range, pairs[b.from..b.to], server) == if b.server == server then pairs[b.from..b.to] else []
  {
    hide GetServer;
    var block := pairs[b.from..b.to];
    forall i | 0 <= i < |block|
      ensures GetServer(cuts, range, block[i].0) == b.server
    {
      assert block[i].0 == KeysOf(pairs)[b.from + i];
    }
    OwnedUniform(cuts, range, block, b.server, server);
  }

  /** Blocks that tile a list, each with a single owner, carry to every server exactly the pairs
      it owns. */
  lemma {:induction false} DeliveredIsOwned(cuts: seq<int>, range: int, pairs: KeyValueList,
                                            blocks: seq<KeyBlock>, start: nat, server: int)
    requires |cuts| >= 1 && start <= |pairs|
    requires Tiles(blocks, start, |pairs|)
    requires forall i :: 0 <= i < |blocks| ==> SingleOwner(cuts, range, KeysOf(pairs), blocks[i])
    ensures Delivered(blocks, pairs, server) == Owned(cuts, range, pairs[start..], server)
  {
    if blocks != [] {
      hide Owned, SingleOwner;
      var b := blocks[0];
      DeliveredIsOwned(cuts, range, pairs, blocks[1..], b.to, server);
      OwnedBlock(cuts, range, pairs, b, server);
      OwnedConcat(cuts, range, pairs[start..b.to], pairs[b.to..], server);
      SplitSuffix(pairs, start, b.to);
    }
  }

  lemma {:induction false} OwnedCount(cuts: seq<int>, range: int, pairs: KeyValueList, server: int, p: (int, real))
    requires |cuts| >= 1
    ensures multiset(Owned(cuts, range, pairs, server))[p]
            == if GetServer(cuts, range, p.0) == server then multiset(pairs)[p] else 0
  {
    if pairs != [] {
      OwnedCount(cuts, range, pairs[..|pairs| - 1], server, p);
      assert pairs == pairs[..|pairs| - 1] + [pairs[|pairs| - 1]];
    }
  }
}
