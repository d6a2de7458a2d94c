/** What a push sends, and what every server receives of it. */
module Pushing {
  import opened Blocks
  import opened KeySorting
  import opened Messages
  import opened Partitioning
  import opened Search

  /** The gradients an agent can push: what the sort leaves in the arrays is sorted, so that the
      searches in it are defined, and on the circle. */
  predicate Pushable(cuts: seq<int>, range: int, pairs: KeyValueList) {
    ValidCuts(cuts, range) && Sorted(KeysOf(SortedPairs(pairs))) && InRange(KeysOf(SortedPairs(pairs)), range)
  }

  /** Keys on the circle of which the sort loses none. */
  lemma LosslessIsPushable(cuts: seq<int>, range: int, pairs: KeyValueList)
    requires ValidCuts(cuts, range) && RepeatsTrail(pairs) && forall i :: 0 <= i < |pairs| ==> 0 <= pairs[i].0 < range
    ensures Pushable(cuts, range, pairs)
  {
    SortsIff(pairs);
    var sorted := SortedPairs(pairs);
    forall i | 0 <= i < |sorted|
      ensures 0 <= sorted[i].0 < range
    {
      assert sorted[i] in multiset(pairs);
    }
  }

  function PushBlocks(cuts: seq<int>, range: int, pairs: KeyValueList): (blocks: seq<KeyBlock>)
    requires Pushable(cuts, range, pairs)
    ensures Tiles(blocks, 0, |pairs|) && Fits(blocks, |pairs|, |cuts|)
  {
    SplitTiles(cuts, range, KeysOf(SortedPairs(pairs)), 0);
    Split(cuts, range, KeysOf(SortedPairs(pairs)), 0)
  }

  /** What a push makes a server receive. */
  function SentTo(cuts: seq<int>, range: int, pairs: KeyValueList, server: int): KeyValueList
    requires Pushable(cuts, range, pairs)
  {
    Delivered(PushBlocks(cuts, range, pairs), SortedPairs(pairs), server)
  }

  lemma SentIsOwned(cuts: seq<int>, range: int, pairs: KeyValueList, server: int)
    requires Pushable(cuts, range, pairs)
    ensures SentTo(cuts, range, pairs, server) == Owned(cuts, range, SortedPairs(pairs), server)
  {
    var sorted := SortedPairs(pairs);
    SplitTiles(cuts, range, KeysOf(sorted), 0);
    DeliveredIsOwned(cuts, range, sorted, PushBlocks(cuts, range, pairs), 0, server);
    assert sorted[0..] == sorted;
  }

  /** Every pair reaches its owner as often as it was pushed, and no other server. */
  predicate DeliversOnce(cuts: seq<int>, range: int, pairs: KeyValueList, server: int, p: (int, real))
    requires Pushable(cuts, range, pairs)
  {
    multiset(SentTo(cuts, range, pairs, server))[p]
    == if GetServer(cuts, range, p.0) == server then multiset(pairs)[p] else 0
  }

  /** A server gets what it owns of what the sort left in the arrays. */
  lemma SentCount(cuts: seq<int>, range: int, pairs: KeyValueList, server: int, p: (int, real))
    requires Pushable(cuts, range, pairs)
    ensures multiset(SentTo(cuts, range, pairs, server))[p]
            == if GetServer(cuts, range, p.0) == server then multiset(SortedPairs(pairs))[p] else 0
  {
    SentIsOwned(cuts, range, pairs, server);
    OwnedCount(cuts, range, SortedPairs(pairs), server, p);
  }

  /** The sort keeps every key, so no pushed key is off the circle. */
  lemma PushedIsOnCircle(cuts: seq<int>, range: int, pairs: KeyValueList, p: (int, real))
    requires Pushable(cuts, range, pairs) && p in multiset(pairs)
    ensures 0 <= p.0 < range
  {
    assert p in pairs;
    var i :| 0 <= i < |pairs| && pairs[i] == p;
    KeyAmongHas(pairs, |pairs|, i);
    MapHasKeys(pairs, |pairs|, p.0);
    var j := HasKeyAt(MapOf(pairs, |pairs|), p.0);
    assert KeysOf(SortedPairs(pairs))[j] == p.0;
  }

  lemma OwnerIsServer(cuts: seq<int>, range: int, key: int)
    requires ValidCuts(cuts, range) && 0 <= key < range
    ensures 0 <= GetServer(cuts, range, key) < |cuts|
  {
    OwnerHasLastCut(cuts, range, key);
  }

  /** If every pair is delivered once, then the sort has lost no pair. */
  lemma DeliveredOnceSorts(cuts: seq<int>, range: int, pairs: KeyValueList)
    requires Pushable(cuts, range, pairs)
    requires forall server, p :: 0 <= server < |cuts| ==> DeliversOnce(cuts, range, pairs, server, p)
    ensures IsSortOf(SortedPairs(pairs), pairs)
  {
    hide SentTo, GetServer, SortedPairs;
    var sorted := SortedPairs(pairs);
    forall p
      ensures multiset(sorted)[p] == multiset(pairs)[p]
    {
      if 0 <= p.0 < range {
        var server := GetServer(cuts, range, p.0);
        OwnerIsServer(cuts, range, p.0);
        assert DeliversOnce(cuts, range, pairs, server, p);
        SentCount(cuts, range, pairs, server, p);
      } else {
        OffCircle(cuts, range, pairs, p);
      }
    }
    SortedByKeys(sorted);
  }

  lemma OffCircle(cuts: seq<int>, range: int, pairs: KeyValueList, p: (int, real))
    requires Pushable(cuts, range, pairs) && !(0 <= p.0 < range)
    ensures p !in multiset(pairs) && p !in multiset(SortedPairs(pairs))
  {
    if p in multiset(pairs) {
      PushedIsOnCircle(cuts, range, pairs, p);
    }
    var sorted := SortedPairs(pairs);
    assert forall i :: 0 <= i < |sorted| ==> sorted[i].0 == KeysOf(sorted)[i];
    assert p !in sorted;
  }

  lemma SortedByKeys(pairs: KeyValueList)
    requires Sorted(KeysOf(pairs))
    ensures SortedByKey(pairs)
  {
    assert forall i :: 0 <= i < |pairs| ==> pairs[i].0 == KeysOf(pairs)[i];
  }

  /** Every pair reaches exactly its owner, as often as it was pushed, if and only if the sort loses
      none: every pair from the first repeated key on has that key, and it is the largest. */
  lemma PushDeliversEachPairOnceIff(cuts: seq<int>, range: int, pairs: KeyValueList)
    requires Pushable(cuts, range, pairs)
    ensures (forall server, p :: 0 <= server < |cuts| ==> DeliversOnce(cuts, range, pairs, server, p)) <==> RepeatsTrail(pairs)
  {
    hide SentTo, GetServer, SortedPairs, RepeatsTrail;
    SortsIff(pairs);
    if RepeatsTrail(pairs) {
      forall server, p | 0 <= server < |cuts|
        ensures DeliversOnce(cuts, range, pairs, server, p)
      {
        SentCount(cuts, range, pairs, server, p);
      }
    } else if forall server, p :: 0 <= server < |cuts| ==> DeliversOnce(cuts, range, pairs, server, p) {
      DeliveredOnceSorts(cuts, range, pairs);
      assert false;
    }
  }

  /** A part of a push on its way to a server. */
  function PushMessage(localId: int, serverId: int, keys: seq<int>, values: seq<real>): Message {
    Message(RequestKind, localId, serverId, Some(Request(KeyValue, keys, values)))
  }

  function PushMessages(localId: int, serverIds: seq<int>, blocks: seq<KeyBlock>, keys: seq<int>, values: seq<real>): seq<Message>
    requires |values| == |keys|
    requires Fits(blocks, |keys|, |serverIds|)
  {
    if blocks == [] then
      []
    else
      var b := blocks[0];
      [PushMessage(localId, serverIds[b.server], keys[b.from..b.to], values[b.from..b.to])]
      + PushMessages(localId, serverIds, blocks[1..], keys, values)
  }

  /** The pairs in the push messages addressed to one node, in sending order. */
  function ReceivedPairs(messages: seq<Message>, id: int): KeyValueList {
    if messages == [] then
      []
    else
      var m := messages[0];
      (if m.recvId == id && m.request.Some? && |m.request.value.keys| <= |m.request.value.values|
       then Pairs(m.request.value.keys, m.request.value.values) else [])
      + ReceivedPairs(messages[1..], id)
  }

  lemma PairsOfSlice(keys: seq<int>, values: seq<real>, from: nat, to: nat)
    requires |values| == |keys| && from <= to <= |keys|
    ensures Pairs(keys[from..to], values[from..to]) == Pairs(keys, values)[from..to]
  {
  }

  /** A message of agent `localId` with keys and as many values. */
  predicate IsUpdate(m: Message, localId: int) {
    && m.kind == RequestKind && m.sendId == localId
    && m.request.Some? && m.request.value.requestType == KeyValue && |m.request.value.keys| == |m.request.value.values|
  }

  /** The messages of a push are updates and carry to each server exactly its blocks. */
  lemma {:induction false} MessagesCarryBlocks(localId: int, serverIds: seq<int>, blocks: seq<KeyBlock>,
                                               keys: seq<int>, values: seq<real>, server: int)
    requires |values| == |keys| && 0 <= server < |serverIds|
    requires DistinctElements(serverIds)
    requires Fits(blocks, |keys|, |serverIds|)
    ensures ReceivedPairs(PushMessages(localId, serverIds, blocks, keys, values), serverIds[server])
            == Delivered(blocks, Pairs(keys, values), server)
    ensures forall i :: 0 <= i < |PushMessages(localId, serverIds, blocks, keys, values)| ==>
              IsUpdate(PushMessages(localId, serverIds, blocks, keys, values)[i], localId)
  {
    if blocks != [] {
      var b := blocks[0];
      PairsOfSlice(keys, values, b.from, b.to);
      MessagesCarryBlocks(localId, serverIds, blocks[1..], keys, values, server);
      var rest := PushMessages(localId, serverIds, blocks[1..], keys, values);
      assert PushMessages(localId, serverIds, blocks, keys, values)[1..] == rest;
    }
  }
}
