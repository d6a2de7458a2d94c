/** The agent: it splits a worker's pushes and pulls over the servers and gathers the replies. */
module AgentModel {
  import opened Blocks
  import opened Gathering
  import opened KeySorting
  import opened Messages
  import opened Partitioning
  import opened Pulling
  import opened Pushing
  import opened Search
  import opened Sequences

  /** The messages that the sending loop of a push still has to send at position `start`. */
  function PushFrom(localId: int, serverIds: seq<int>, cuts: seq<int>, range: int,
                    keys: seq<int>, values: seq<real>, start: nat): seq<Message>
    requires ValidCuts(cuts, range) && Sorted(keys) && InRange(keys, range) && start <= |keys|
    requires |values| == |keys| && |serverIds| == |cuts|
    decreases |keys| - start
  {
    if start == |keys| then
      []
    else
      NextEndIsBlock(cuts, range, keys, start);
      var end := NextEnd(cuts, range, keys, start);
      [PushMessage(localId, serverIds[GetServer(cuts, range, keys[start])], keys[start..end], values[start..end])]
      + PushFrom(localId, serverIds, cuts, range, keys, values, end)
  }

  lemma {:induction false} PushFromIsSplit(localId: int, serverIds: seq<int>, cuts: seq<int>, range: int,
                                           keys: seq<int>, values: seq<real>, start: nat)
    requires ValidCuts(cuts, range) && Sorted(keys) && InRange(keys, range) && start <= |keys|
    requires |values| == |keys| && |serverIds| == |cuts|
    ensures var blocks := Split(cuts, range, keys, start);
            && Fits(blocks, |keys|, |serverIds|)
            && PushFrom(localId, serverIds, cuts, range, keys, values, start)
               == PushMessages(localId, serverIds, blocks, keys, values)
    decreases |keys| - start
  {
    if start < |keys| {
      SplitStep(cuts, range, keys, start);
      var end := NextEnd(cuts, range, keys, start);
      PushFromIsSplit(localId, serverIds, cuts, range, keys, values, end);
      FirstPushMessage(localId, serverIds, KeyBlock(GetServer(cuts, range, keys[start]), start, end),
                       Split(cuts, range, keys, end), keys, values);
    }
  }

  /** The requests that the asking loop of a pull still has to make at position `start`. */
  function AskFrom(serverIds: seq<int>, cuts: seq<int>, range: int, keys: seq<int>, start: nat): seq<Ask>
    requires ValidCuts(cuts, range) && Sorted(keys) && InRange(keys, range) && start <= |keys|
    requires |serverIds| == |cuts|
    decreases |keys| - start
  {
    if start == |keys| then
      []
    else
      NextEndIsBlock(cuts, range, keys, start);
      var end := NextEnd(cuts, range, keys, start);
      [Ask(serverIds[GetServer(cuts, range, keys[start])], keys[start..end])]
      + AskFrom(serverIds, cuts, range, keys, end)
  }

  lemma {:induction false} AskFromIsSplit(serverIds: seq<int>, cuts: seq<int>, range: int, keys: seq<int>, start: nat)
    requires ValidCuts(cuts, range) && Sorted(keys) && InRange(keys, range) && start <= |keys|
    requires |serverIds| == |cuts|
    ensures var blocks := Split(cuts, range, keys, start);
            && Fits(blocks, |keys|, |serverIds|)
            && AskFrom(serverIds, cuts, range, keys, start) == Asks(serverIds, blocks, keys)
    decreases |keys| - start
  {
    if start < |keys| {
      SplitStep(cuts, range, keys, start);
      AskFromIsSplit(serverIds, cuts, range, keys, NextEnd(cuts, range, keys, start));
    }
  }

  class Agent {
    const localId: int
    const serverIds: seq<int>
    const partition: Partition
    // The arrays shared with the worker, and how many slots of them are in use.
    const gradientKeys: array<int>
    const gradientValues: array<real>
    var gradientSize: nat
    const parameterKeys: array<int>
    const parameterValues: array<real>
    var parameterSize: nat
    // Everything handed to the sender so far.
    var sent: seq<Message>

    ghost predicate Valid()
      reads this, partition
    {
      && partition.Valid()
      && |serverIds| == |partition.partVec|
      && gradientSize <= gradientKeys.Length && gradientSize <= gradientValues.Length
      && parameterSize <= parameterKeys.Length <= parameterValues.Length
      && gradientKeys != parameterKeys && gradientValues != parameterValues
    }

    ghost function Gradients(): KeyValueList
      reads this, gradientKeys, gradientValues
      requires gradientSize <= gradientKeys.Length && gradientSize <= gradientValues.Length
    {
      Pairs(gradientKeys[..gradientSize], gradientValues[..gradientSize])
    }

    constructor (localId: int, serverIds: seq<int>, partition: Partition, capacity: nat)
      requires partition.Valid() && |serverIds| == |partition.partVec|
      ensures Valid() && fresh(gradientKeys) && fresh(gradientValues) && fresh(parameterKeys) && fresh(parameterValues)
      ensures this.localId == localId && this.serverIds == serverIds && this.partition == partition
      ensures sent == []
    {
      this.localId, this.serverIds, this.partition := localId, serverIds, partition;
      gradientKeys, gradientValues, gradientSize := new int[capacity], new real[capacity], 0;
      parameterKeys, parameterValues, parameterSize := new int[capacity], new real[capacity], 0;
      sent := [];
    }

    /** Sorts the gradients and sends each server its block of them. */
    method Push()
      requires Valid() && Pushable(partition.partVec, partition.keyRange, Gradients())
      modifies gradientKeys, gradientValues, `sent
      ensures Valid() && Gradients() == SortedPairs(old(Gradients()))
      ensures sent == old(sent) + PushMessages(localId, serverIds,
                PushBlocks(partition.partVec, partition.keyRange, old(Gradients())),
                gradientKeys[..gradientSize], gradientValues[..gradientSize])
    {
      hide SortedPairs, Split, ValidCuts, Sorted, InRange, Pairs;
      SortKeyValue(gradientKeys, gradientValues, gradientSize);
      KeysOfPairs(gradientKeys[..gradientSize], gradientValues[..gradientSize]);
      SendBlocks();
    }

    /** Divides the sorted gradients into blocks and sends them to their servers. */
    method SendBlocks()
      requires Valid() && Sorted(gradientKeys[..gradientSize]) && InRange(gradientKeys[..gradientSize], partition.keyRange)
      modifies `sent
      ensures var keys := gradientKeys[..gradientSize];
              var blocks := Split(partition.partVec, partition.keyRange, keys, 0);
              && Fits(blocks, |keys|, |serverIds|)
              && sent == old(sent) + PushMessages(localId, serverIds, blocks, keys, gradientValues[..gradientSize])
    {
      var keys, values := gradientKeys[..gradientSize], gradientValues[..gradientSize];
      ghost var cuts, range := partition.partVec, partition.keyRange;
      var start := 0;
      while start < gradientSize
        invariant start <= gradientSize
        invariant sent + PushFrom(localId, serverIds, cuts, range, keys, values, start)
                  == old(sent) + PushFrom(localId, serverIds, cuts, range, keys, values, 0)
        decreases gradientSize - start
      {
        var end, server := partition.NextEnding(keys, start);
        NextEndIsBlock(cuts, range, keys, start);
        MoveOver(sent, PushMessage(localId, serverIds[server], keys[start..end], values[start..end]),
                 PushFrom(localId, serverIds, cuts, range, keys, values, end));
        SendBlock(serverIds[server], start, end);
        start := end;
      }
      PushFromIsSplit(localId, serverIds, cuts, range, keys, values, 0);
    }

    method SendBlock(serverId: int, start: nat, end: nat)
      requires start <= end <= gradientSize && gradientSize <= gradientKeys.Length && gradientSize <= gradientValues.Length
      modifies `sent
      ensures sent == old(sent) + [PushMessage(localId, serverId, gradientKeys[..gradientSize][start..end],
                                               gradientValues[..gradientSize][start..end])]
    {
      var keys: seq<int>, values: seq<real> := [], [];
      for i := start to end
        invariant keys == gradientKeys[..gradientSize][start..i] && values == gradientValues[..gradientSize][start..i]
      {
        keys, values := keys + [gradientKeys[i]], values + [gradientValues[i]];
      }
      sent := sent + [PushMessage(localId, serverId, keys, values)];
    }

    /** Asks each server for its block of keys. */
    method AskServers(keys: seq<int>) returns (serverSet: set<int>)
      requires Valid() && Sorted(keys) && InRange(keys, partition.keyRange)
      modifies `sent
      ensures var asks := PullAsks(partition.partVec, partition.keyRange, serverIds, keys);
              serverSet == AskedIds(asks) && sent == old(sent) + PullMessages(localId, asks)
    {
      hide GetServer, SingleOwner;
      ghost var cuts, range := partition.partVec, partition.keyRange;
      ghost var all := AskFrom(serverIds, cuts, range, keys, 0);
      var start := 0;
      serverSet := {};
      while start < |keys|
        invariant start <= |keys|
        invariant serverSet + AskedIds(AskFrom(serverIds, cuts, range, keys, start)) == AskedIds(all)
        invariant sent + PullMessages(localId, AskFrom(serverIds, cuts, range, keys, start))
                  == old(sent) + PullMessages(localId, all)
        decreases |keys| - start
      {
        var end, server := partition.NextEnding(keys, start);
        NextEndIsBlock(cuts, range, keys, start);
        FirstPullMessage(localId, Ask(serverIds[server], keys[start..end]), AskFrom(serverIds, cuts, range, keys, end));
        MoveOver(sent, PullMessage(localId, serverIds[server], keys[start..end]),
                 PullMessages(localId, AskFrom(serverIds, cuts, range, keys, end)));
        serverSet := serverSet + {serverIds[server]};
        sent := sent + [PullMessage(localId, serverIds[server], keys[start..end])];
        start := end;
      }
      AskFromIsSplit(serverIds, cuts, range, keys, 0);
    }

    /** Writes the pairs of one reply behind the `cur` pairs collected so far. */
    method CopyPairs(keys: seq<int>, values: seq<real>, cur: nat)
      requires |keys| <= |values| && cur + |keys| <= parameterKeys.Length <= parameterValues.Length
      modifies parameterKeys, parameterValues
      ensures forall j :: 0 <= j < cur ==> parameterKeys[j] == old(parameterKeys[j]) && parameterValues[j] == old(parameterValues[j])
      ensures forall j :: cur <= j < cur + |keys| ==> parameterKeys[j] == keys[j - cur] && parameterValues[j] == values[j - cur]
    {
      for i := 0 to |keys|
        invariant forall j :: 0 <= j < cur ==> parameterKeys[j] == old(parameterKeys[j]) && parameterValues[j] == old(parameterValues[j])
        invariant forall j :: cur <= j < cur + i ==> parameterKeys[j] == keys[j - cur] && parameterValues[j] == values[j - cur]
      {
        parameterKeys[cur + i] := keys[i];
        parameterValues[cur + i] := values[i];
      }
    }

    /** Waits until every asked server has replied, ignoring all other messages. */
    method Gather(asked: set<int>, incoming: seq<Incoming>) returns (received: nat)
      requires parameterKeys.Length <= parameterValues.Length && ValuesForKeys(localId, incoming)
      requires forall id :: id in asked ==> Answers(id, localId, incoming, 0)
      requires |Gathered(asked, localId, incoming, 0)| <= parameterKeys.Length
      modifies parameterKeys, parameterValues, `parameterSize
      ensures received <= |incoming| && parameterSize <= parameterKeys.Length
      ensures Pairs(parameterKeys[..parameterSize], parameterValues[..parameterSize]) == Gathered(asked, localId, incoming, 0)
    {
      hide Gathered, Answers, Pairs;
      ghost var all := Gathered(asked, localId, incoming, 0);
      ghost var collected: KeyValueList := [];
      var serverSet, cur := asked, 0;
      received := 0;
      while serverSet != {}
        invariant received <= |incoming|
        invariant forall id :: id in serverSet ==> Answers(id, localId, incoming, received)
        invariant collected + Gathered(serverSet, localId, incoming, received) == all
        invariant |collected| == cur
        invariant forall i :: 0 <= i < cur ==> parameterKeys[i] == collected[i].0 && parameterValues[i] == collected[i].1
        decreases |incoming| - received
      {
        MoreToCome(serverSet, localId, incoming, received);
        if Accepts(serverSet, localId, incoming[received]) {
          GatherTakes(serverSet, localId, incoming, received, collected);
          var m := incoming[received].message;
          ghost var pairs := Pairs(m.request.value.keys, m.request.value.values);
          CopyPairs(m.request.value.keys, m.request.value.values, cur);
          serverSet := serverSet - {m.sendId};
          collected := collected + pairs;
          cur := cur + |m.request.value.keys|;
        } else {
          GatherSkips(serverSet, localId, incoming, received);
        }
        received := received + 1;
      }
      NothingToGather(localId, incoming, received);
      parameterSize := cur;
    }

    /** Pulls the requested keys; `incoming` is what the receiver yields, call by call. */
    method Pull(incoming: seq<Incoming>) returns (received: nat)
      requires Valid() && ValuesForKeys(localId, incoming)
      requires InRange(Sort(parameterKeys[..parameterSize]), partition.keyRange)
      requires var asks := PullAsks(partition.partVec, partition.keyRange, serverIds, Sort(parameterKeys[..parameterSize]));
               && (forall id :: id in AskedIds(asks) ==> Answers(id, localId, incoming, 0))
               && |Gathered(AskedIds(asks), localId, incoming, 0)| <= parameterKeys.Length
      modifies parameterKeys, parameterValues, `parameterSize, `sent
      ensures Valid() && received <= |incoming|
      ensures var asks := PullAsks(partition.partVec, partition.keyRange, serverIds, Sort(old(parameterKeys[..parameterSize])));
              && sent == old(sent) + PullMessages(localId, asks)
              && Pairs(parameterKeys[..parameterSize], parameterValues[..parameterSize])
                 == Gathered(AskedIds(asks), localId, incoming, 0)
    {
      hide PullAsks, AskedIds, PullMessages, Sort, Sorted, Pairs, Gathered, Answers, ValidCuts, InRange;
      var serverSet := AskServers(Sort(parameterKeys[..parameterSize]));
      received := Gather(serverSet, incoming);
    }
  }

  lemma FirstPushMessage(localId: int, serverIds: seq<int>, b: KeyBlock, rest: seq<KeyBlock>,
                         keys: seq<int>, values: seq<real>)
    requires |values| == |keys| && Fits([b] + rest, |keys|, |serverIds|) && Fits(rest, |keys|, |serverIds|)
    ensures 0 <= b.server < |serverIds| && b.from <= b.to <= |keys|
    ensures PushMessages(localId, serverIds, [b] + rest, keys, values)
            == [PushMessage(localId, serverIds[b.server], keys[b.from..b.to], values[b.from..b.to])]
               + PushMessages(localId, serverIds, rest, keys, values)
  {
    assert ([b] + rest)[1..] == rest;
    assert ([b] + rest)[0] == b;
  }

  lemma FirstPullMessage(localId: int, ask: Ask, rest: seq<Ask>)
    ensures PullMessages(localId, [ask] + rest) == [PullMessage(localId, ask.id, ask.keys)] + PullMessages(localId, rest)
    ensures AskedIds([ask] + rest) == {ask.id} + AskedIds(rest)
  {
    assert ([ask] + rest)[1..] == rest;
  }

  /** What one accepted reply adds, and what is still to be gathered after it. */
  lemma GatherTakes(asked: set<int>, localId: int, incoming: seq<Incoming>, from: nat, collected: KeyValueList)
    requires asked != {} && from < |incoming| && ValuesForKeys(localId, incoming)
    requires forall id :: id in asked ==> Answers(id, localId, incoming, from)
    requires Accepts(asked, localId, incoming[from])
    ensures var m := incoming[from].message;
            && collected + Gathered(asked, localId, incoming, from)
               == collected + Pairs(m.request.value.keys, m.request.value.values)
                  + Gathered(asked - {m.sendId}, localId, incoming, from + 1)
            && forall id :: id in asked - {m.sendId} ==> Answers(id, localId, incoming, from + 1)
  {
    var m := incoming[from].message;
    ConcatAssociates(collected, Pairs(m.request.value.keys, m.request.value.values),
                     Gathered(asked - {m.sendId}, localId, incoming, from + 1));
  }

  lemma NothingToGather(localId: int, incoming: seq<Incoming>, from: nat)
    requires from <= |incoming| && ValuesForKeys(localId, incoming)
    ensures Gathered({}, localId, incoming, from) == []
  {
  }

  lemma GatherSkips(asked: set<int>, localId: int, incoming: seq<Incoming>, from: nat)
    requires asked != {} && from < |incoming| && ValuesForKeys(localId, incoming)
    requires forall id :: id in asked ==> Answers(id, localId, incoming, from)
    requires !Accepts(asked, localId, incoming[from])
    ensures Gathered(asked, localId, incoming, from) == Gathered(asked, localId, incoming, from + 1)
    ensures forall id :: id in asked ==> Answers(id, localId, incoming, from + 1)
  {
  }

  lemma MoreToCome(asked: set<int>, localId: int, incoming: seq<Incoming>, from: nat)
    requires from <= |incoming|
    requires forall id :: id in asked ==> Answers(id, localId, incoming, from)
    ensures asked != {} ==> from < |incoming|
  {
    forall id | from == |incoming|
      ensures id !in asked
    {
      assert id in asked ==> !Answers(id, localId, incoming, from);
    }
  }
}
