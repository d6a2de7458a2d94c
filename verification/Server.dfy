/** The server process: the object whose fields the messages update in place. */
module ServerModel {
  import opened Averaging
  import opened Backups
  import opened Circle
  import opened Messages
  import opened Partitioning
  import opened Sequences
  import opened ServerMessages
  import S = ServerState

  /** How many keys lie between the start of server i and the start of the next server. */
  function Length(config: ConfigMessage, i: nat): (length: nat)
    requires WellFormed(config) && i < config.serverNum
    ensures ValidCuts(config.partition[..config.serverNum], config.keyRange) ==>
              length == SegmentLength(config.partition[..config.serverNum], config.keyRange, i)
  {
    Distance(config.partition[i], config.partition[Next(i, config.serverNum)], config.keyRange)
  }

  /** The keys of n parameters in a row. */
  function KeysFrom(startKey: int, n: nat): (keys: seq<int>)
    ensures |keys| == n && forall i :: 0 <= i < n ==> keys[i] == startKey + i
  {
    if n == 0 then [] else KeysFrom(startKey, n - 1) + [startKey + n - 1]
  }

  /** The backup requests of a server, nearest predecessor first. */
  function BackupTargets(serverIds: seq<int>, localIndex: nat, backupSize: nat): (targets: seq<int>)
    requires localIndex < |serverIds| && backupSize < |serverIds|
    ensures |targets| == backupSize
    ensures forall j :: 1 <= j <= backupSize ==> targets[j - 1] == serverIds[Predecessor(localIndex, j, |serverIds|)]
  {
    if backupSize == 0 then
      []
    else
      BackupTargets(serverIds, localIndex, backupSize - 1) + [serverIds[Predecessor(localIndex, backupSize, |serverIds|)]]
  }

  lemma FirstReply(serverId: int, reply: S.Reply, rest: seq<S.Reply>)
    ensures ReplyMessages(serverId, [reply] + rest) == [ReplyMessage(serverId, reply)] + ReplyMessages(serverId, rest)
  {
    assert ([reply] + rest)[1..] == rest;
  }

  lemma NoReplies(serverId: int, replies: seq<S.Reply>)
    ensures ReplyMessages(serverId, replies[|replies|..]) == []
  {
  }

  lemma LastRequest(serverId: int, targets: seq<int>, target: int)
    ensures BackupRequests(serverId, targets + [target])
            == BackupRequests(serverId, targets) + [BackupRequest(serverId, target)]
  {
  }

  class Server {
    var localIndex: nat
    const localId: int
    var startKey: int
    var parameterLength: nat
    var consistencyBound: nat
    var bottomVersion: nat
    var agentNum: nat
    var serverNum: nat
    var keyRange: nat
    var backupSize: int
    var masterIds: seq<int>
    var serverIds: seq<int>
    var servers: map<int, nat>
    var agentIds: set<int>
    var parameters: seq<real>
    var backupParameters: seq<seq<real>>
    var versionBuffer: seq<seq<KeyValueList>>
    var finishCount: seq<int>
    var pullRequests: seq<S.PullInfo>
    var idToIndex: map<int, nat>
    // The messages handed to the sender, and what those to agents say.
    var sent: seq<Message>
    ghost var replies: seq<S.Reply>

    ghost function Cfg(): S.Config
      reads this
    {
      S.Config(consistencyBound, agentNum, idToIndex, startKey, parameterLength, keyRange)
    }

    ghost function Snapshot(): S.State
      reads this
    {
      S.State(parameters, bottomVersion, finishCount, versionBuffer, pullRequests, replies)
    }

    ghost predicate Serving()
      reads this
    {
      && S.Inv(Cfg(), Snapshot())
      && agentIds == idToIndex.Keys
      && 0 <= backupSize < serverNum && localIndex < serverNum == |serverIds|
      && |backupParameters| == backupSize
      && forall id :: id in servers ==> servers[id] < serverNum
    }

    constructor (localId: int)
      ensures this.localId == localId && Blank()
    {
      this.localId := localId;
      localIndex, startKey, parameterLength, consistencyBound, bottomVersion := 0, 0, 0, 0, 0;
      agentNum, serverNum, keyRange, backupSize := 0, 0, 0, 0;
      masterIds, serverIds, servers, agentIds := [], [], map[], {};
      parameters, backupParameters, versionBuffer, finishCount, pullRequests := [], [], [], [], [];
      idToIndex, sent, replies := map[], [], [];
    }

    /** What the server derives from its place i in the partition. */
    ghost predicate Located(config: ConfigMessage, i: nat)
      requires i < config.serverNum && WellFormed(config) && config.backupSize < config.serverNum
      reads `localIndex, `startKey, `parameterLength, `backupParameters
    {
      && localIndex == i && config.serverIds[i] == localId
      && startKey == config.partition[i]
      && parameterLength == Length(config, i)
      && |backupParameters| == config.backupSize
      && forall j :: 1 <= j <= config.backupSize ==>
           backupParameters[j - 1] == S.ZeroParameters(Length(config, Predecessor(i, j, config.serverNum)))
    }

    /** Sizes the backup slots: one per predecessor, as long as that server's own segment. */
    method InitializeBackups(config: ConfigMessage, i: nat)
      requires i < config.serverNum && WellFormed(config) && 0 <= config.backupSize < config.serverNum
      requires backupParameters == []
      modifies `backupParameters
      ensures |backupParameters| == config.backupSize
      ensures forall j :: 1 <= j <= config.backupSize ==>
                backupParameters[j - 1] == S.ZeroParameters(Length(config, Predecessor(i, j, config.serverNum)))
    {
      for j := 1 to config.backupSize + 1
        invariant |backupParameters| == j - 1
        invariant forall k :: 1 <= k < j ==>
                    backupParameters[k - 1] == S.ZeroParameters(Length(config, Predecessor(i, k, config.serverNum)))
      {
        var target := Predecessor(i, j, config.serverNum);
        backupParameters := backupParameters + [S.ZeroParameters(Length(config, target))];
      }
    }

    /** The servers of a configuration in order, and the place of each. */
    ghost predicate Listed(config: ConfigMessage, n: nat)
      requires n <= |config.serverIds|
      reads `serverIds, `servers
    {
      && serverIds == config.serverIds[..n]
      && (forall id :: id in servers ==> id in serverIds)
      && forall i :: 0 <= i < n ==> serverIds[i] in servers && servers[serverIds[i]] == i
    }

    /** Puts server i in the list. */
    method AddServer(config: ConfigMessage, i: nat)
      requires WellFormed(config) && i < config.serverNum && Listed(config, i)
      modifies `serverIds, `servers
      ensures Listed(config, i + 1)
    {
      var id := config.serverIds[i];
      assert id !in serverIds;
      serverIds := serverIds + [id];
      servers := servers[id := i];
      TakeOneMore(config.serverIds, i);
    }

    ghost predicate Placed(config: ConfigMessage)
      requires WellFormed(config) && config.backupSize < config.serverNum
      reads `localIndex, `startKey, `parameterLength, `backupParameters, `serverIds, `servers
    {
      localIndex < config.serverNum && Located(config, localIndex) && Listed(config, config.serverNum)
    }

    /** Takes place i of the partition. */
    method TakePlace(config: ConfigMessage, i: nat)
      requires i < config.serverNum && WellFormed(config) && 0 <= config.backupSize < config.serverNum
      requires config.serverIds[i] == localId && backupParameters == []
      modifies `localIndex, `startKey, `parameterLength, `backupParameters
      ensures localIndex == i && Located(config, i)
    {
      localIndex := i;
      startKey := config.partition[i];
      parameterLength := Length(config, i);
      InitializeBackups(config, i);
    }

    /** Records the servers and, at its own id, this server's segment and backup slots. */
    method Locate(config: ConfigMessage) returns (found: bool)
      requires WellFormed(config) && 0 <= config.backupSize < config.serverNum
      requires serverIds == [] && servers == map[] && backupParameters == []
      modifies `localIndex, `startKey, `parameterLength, `serverIds, `servers, `backupParameters
      ensures Listed(config, config.serverNum)
      ensures found <==> localId in config.serverIds[..config.serverNum]
      ensures found ==> Placed(config)
    {
      hide Located;
      found := false;
      for i := 0 to config.serverNum
        invariant Listed(config, i)
        invariant found <==> localId in config.serverIds[..i]
        invariant found ==> localIndex < i && Located(config, localIndex)
        invariant !found ==> backupParameters == []
      {
        TakeOneMore(config.serverIds, i);
        AddServer(config, i);
        if config.serverIds[i] == localId {
          NotYetListed(config, i);
          TakePlace(config, i);
          found := true;
        }
      }
    }

    lemma NotYetListed(config: ConfigMessage, i: nat)
      requires WellFormed(config) && i < config.serverNum
      ensures config.serverIds[i] !in config.serverIds[..i]
    {
    }

    method InitializeIds(config: ConfigMessage)
      requires agentIds == {} && masterIds == []
      modifies `agentIds, `masterIds
      ensures forall id :: id in agentIds <==> id in config.workerIds
      ensures masterIds == config.masterIds
    {
      for i := 0 to |config.workerIds|
        invariant (forall id :: id in agentIds <==> id in config.workerIds[..i]) && masterIds == []
      {
        agentIds := agentIds + {config.workerIds[i]};
      }
      for i := 0 to |config.masterIds|
        invariant (forall id :: id in agentIds <==> id in config.workerIds) && masterIds == config.masterIds[..i]
      {
        masterIds := masterIds + [config.masterIds[i]];
      }
    }

    /** Numbers the agents in the order of the configuration. */
    method InitializeIndex(workerIds: seq<int>)
      requires agentNum <= |workerIds| && DistinctElements(workerIds) && idToIndex == map[]
      modifies `idToIndex
      ensures forall i :: 0 <= i < agentNum ==> workerIds[i] in idToIndex && idToIndex[workerIds[i]] == i
      ensures forall id :: id in idToIndex ==> id in workerIds[..agentNum] && idToIndex[id] < agentNum
    {
      for i := 0 to agentNum
        invariant forall k :: 0 <= k < i ==> workerIds[k] in idToIndex && idToIndex[workerIds[k]] == k
        invariant forall id :: id in idToIndex ==> id in workerIds[..i] && idToIndex[id] < i
      {
        assert workerIds[i] !in workerIds[..i];
        idToIndex := idToIndex[workerIds[i] := i];
      }
    }

    /** Parameters and counts start at zero, buffers empty. */
    method InitializeBuffers()
      requires parameters == [] && finishCount == [] && versionBuffer == []
      modifies `parameters, `finishCount, `versionBuffer
      ensures parameters == S.ZeroParameters(parameterLength)
      ensures finishCount == S.ZeroCounts(consistencyBound)
      ensures versionBuffer == S.EmptyBuffers(agentNum)
    {
      for i := 0 to parameterLength
        invariant parameters == S.ZeroParameters(i) && finishCount == [] && versionBuffer == []
      {
        parameters := parameters + [0.0];
      }
      ghost var zeros := parameters;
      for i := 0 to consistencyBound
        invariant parameters == zeros && finishCount == S.ZeroCounts(i) && versionBuffer == []
      {
        finishCount := finishCount + [0];
      }
      ghost var counts := finishCount;
      for i := 0 to agentNum
        invariant parameters == zeros && finishCount == counts && versionBuffer == S.EmptyBuffers(i)
      {
        versionBuffer := versionBuffer + [[]];
      }
    }

    /** The agents are known and numbered in the order of the configuration. */
    ghost predicate Numbered(config: ConfigMessage)
      requires config.workerNum <= |config.workerIds|
      reads `agentIds, `masterIds, `idToIndex
    {
      && (forall id :: id in agentIds <==> id in config.workerIds)
      && masterIds == config.masterIds
      && (forall i :: 0 <= i < config.workerNum ==>
            config.workerIds[i] in idToIndex && idToIndex[config.workerIds[i]] == i)
      && forall id :: id in idToIndex ==> id in config.workerIds[..config.workerNum] && idToIndex[id] < config.workerNum
    }

    ghost predicate Sized(config: ConfigMessage)
      reads `serverNum, `backupSize, `consistencyBound, `agentNum
    {
      && serverNum == config.serverNum && backupSize == config.backupSize
      && consistencyBound == config.bound && agentNum == config.workerNum
    }

    ghost predicate NoAgents()
      reads this
    {
      agentIds == {} && masterIds == [] && idToIndex == map[] && Snapshot() == S.State([], 0, [], [], [], [])
    }

    ghost predicate Blank()
      reads this
    {
      NoAgents() && serverIds == [] && servers == map[] && backupParameters == []
    }

    /** All that a configuration message decides. */
    ghost predicate Configured(config: ConfigMessage)
      requires WellFormed(config) && config.workerNum <= |config.workerIds|
      reads this
    {
      && 0 <= config.backupSize < config.serverNum
      && Sized(config) && keyRange == config.keyRange
      && Placed(config)
      && Numbered(config)
      && Snapshot() == S.Init(Cfg())
    }

    /** The second half of the configuration: agents, masters and the zero state. */
    method InitializeAgents(config: ConfigMessage)
      requires config.workerNum <= |config.workerIds| && DistinctElements(config.workerIds)
      requires agentNum == config.workerNum && NoAgents()
      modifies `agentIds, `masterIds, `idToIndex, `parameters, `finishCount, `versionBuffer
      ensures Numbered(config) && Snapshot() == S.Init(Cfg())
    {
      InitializeIds(config);
      InitializeIndex(config.workerIds);
      InitializeBuffers();
    }

    method InitializeSizes(config: ConfigMessage)
      modifies `bottomVersion, `consistencyBound, `agentNum, `serverNum, `backupSize
      ensures Sized(config) && bottomVersion == 0
    {
      bottomVersion := 0;
      consistencyBound := config.bound;
      agentNum := config.workerNum;
      serverNum := config.serverNum;
      backupSize := config.backupSize;
    }

    /** Configures a new server; fails if the number of backups makes no sense or the server is not
        in the configuration. */
    method Initialize(config: ConfigMessage) returns (ok: bool)
      requires Blank() && Usable(config)
      modifies this
      ensures ok <==> 0 <= config.backupSize < config.serverNum && localId in config.serverIds[..config.serverNum]
      ensures ok ==> Configured(config)
    {
      hide WellFormed, DistinctElements, S.Init, Length, Located, Listed, Numbered;
      InitializeSizes(config);
      if backupSize < 0 || backupSize >= serverNum {
        return false;
      }
      keyRange := config.keyRange;
      ok := Locate(config);
      if ok {
        InitializeAgents(config);
      }
    }

    /** A freshly configured server with at least one agent can serve. */
    lemma InitializedServes(config: ConfigMessage)
      requires WellFormed(config) && config.bound >= 1 && config.workerNum == |config.workerIds| >= 1
      requires Configured(config)
      ensures Serving()
    {
      S.InitInv(Cfg());
      assert config.workerIds[..agentNum] == config.workerIds;
      assert forall id :: id in config.workerIds ==> id in idToIndex;
      assert forall id :: id in agentIds <==> id in idToIndex;
    }

    /** Reads the parameters at the plain offsets of some keys. */
    method ReadParameters(keys: seq<int>) returns (values: seq<real>)
      requires |parameters| == parameterLength && S.PlainKeys(Cfg(), keys)
      ensures values == S.PlainValues(Cfg(), parameters, keys)
    {
      values := [];
      for i := 0 to |keys|
        invariant |values| == i
        invariant forall j :: 0 <= j < i ==> values[j] == parameters[keys[j] - startKey]
      {
        values := values + [parameters[keys[i] - startKey]];
      }
    }

    /** Answers every blocked pull, oldest first. */
    method RespondToAll()
      requires |parameters| == parameterLength
      requires forall q :: 0 <= q < |pullRequests| ==> S.PlainKeys(Cfg(), pullRequests[q].keys)
      modifies `pullRequests, `sent, `replies
      ensures Snapshot() == S.RespondToAll(old(Cfg()), old(Snapshot()))
      ensures sent == old(sent) + ReplyMessages(localId, S.Answers(Cfg(), parameters, old(pullRequests)))
    {
      ghost var c := Cfg();
      while pullRequests != []
        invariant forall q :: 0 <= q < |pullRequests| ==> S.PlainKeys(c, pullRequests[q].keys)
        invariant replies + S.Answers(c, parameters, pullRequests)
                  == old(replies) + S.Answers(c, parameters, old(pullRequests))
        invariant sent + ReplyMessages(localId, S.Answers(c, parameters, pullRequests))
                  == old(sent) + ReplyMessages(localId, S.Answers(c, parameters, old(pullRequests)))
        decreases |pullRequests|
      {
        var request := pullRequests[0];
        var values := ReadParameters(request.keys);
        ghost var reply, rest := S.Reply(request.id, request.keys, values), S.Answers(c, parameters, pullRequests[1..]);
        FirstReply(localId, reply, rest);
        MoveOver(replies, reply, rest);
        MoveOver(sent, ReplyMessage(localId, reply), ReplyMessages(localId, rest));
        pullRequests := pullRequests[1..];
        sent := sent + [Message(RequestKind, localId, request.id, Some(Request(KeyValue, request.keys, values)))];
        replies := replies + [reply];
      }
    }

    /** Adds one update of an agent, key by key. */
    method AddUpdate(update: seq<real>, pairs: KeyValueList) returns (r: seq<real>)
      requires |update| == parameterLength && S.PlainUpdate(Cfg(), pairs)
      ensures |r| == parameterLength
      ensures forall x :: 0 <= x < parameterLength ==>
                r[x] == update[x] + Contribution(pairs, |pairs|, startKey + x)
    {
      r := update;
      assert forall x :: Contribution(pairs, 0, x) == 0.0;
      for j := 0 to |pairs|
        invariant |r| == parameterLength
        invariant forall x :: 0 <= x < parameterLength ==>
                    r[x] == update[x] + Contribution(pairs, j, startKey + x)
      {
        var at := pairs[j].0 - startKey;
        r := r[at := r[at] + pairs[j].1];
      }
    }

    /** Takes the oldest update of every agent and adds them up. */
    method SumRound() returns (update: seq<real>)
      requires S.ValidConfig(Cfg()) && S.Shaped(Cfg(), Snapshot())
      requires forall i :: 0 <= i < agentNum ==> versionBuffer[i] != []
      modifies `versionBuffer
      ensures versionBuffer == S.Popped(old(versionBuffer))
      ensures |update| == parameterLength
      ensures forall x :: 0 <= x < parameterLength ==>
                update[x] == RoundSum(S.Fronts(old(versionBuffer)), agentNum, startKey + x)
    {
      ghost var c, buffers := Cfg(), versionBuffer;
      ghost var fronts := S.Fronts(buffers);
      update := S.ZeroParameters(parameterLength);
      for i := 0 to agentNum
        invariant |update| == parameterLength && |versionBuffer| == agentNum
        invariant forall k :: 0 <= k < i ==> versionBuffer[k] == buffers[k][1..]
        invariant forall k :: i <= k < agentNum ==> versionBuffer[k] == buffers[k]
        invariant forall x :: 0 <= x < parameterLength ==> update[x] == RoundSum(fronts, i, startKey + x)
      {
        assert S.PlainUpdate(c, buffers[i][0]);
        var pairs := versionBuffer[i][0];
        versionBuffer := versionBuffer[i := versionBuffer[i][1..]];
        update := AddUpdate(update, pairs);
      }
    }

    /** Takes the oldest update of every agent and adds their average to the parameters. */
    method UpdateParameter()
      requires S.ValidConfig(Cfg()) && S.Shaped(Cfg(), Snapshot())
      requires forall i :: 0 <= i < agentNum ==> versionBuffer[i] != []
      modifies `versionBuffer, `parameters, `bottomVersion
      ensures Snapshot() == S.UpdateParameter(old(Cfg()), old(Snapshot()))
      ensures |parameters| == |old(parameters)| == parameterLength
      ensures forall x :: 0 <= x < parameterLength ==>
                parameters[x]
                == old(parameters)[x] + Total(AllPairs(S.Fronts(old(versionBuffer))), startKey + x) / agentNum as real
    {
      hide RoundSum, S.PlainUpdate, Total, AllPairs;
      ghost var before := parameters;
      ghost var fronts := S.Fronts(versionBuffer);
      var update := SumRound();
      ghost var popped := versionBuffer;
      for i := 0 to parameterLength
        invariant |parameters| == parameterLength
        invariant versionBuffer == popped && bottomVersion == old(bottomVersion)
        invariant forall x :: 0 <= x < i ==>
                    parameters[x] == before[x] + RoundSum(fronts, agentNum, startKey + x) / agentNum as real
        invariant forall x :: i <= x < parameterLength ==> parameters[x] == before[x]
      {
        parameters := parameters[i := parameters[i] + update[i] / agentNum as real];
      }
      assert parameters == S.Averaged(before, fronts, startKey, parameterLength);
      forall key: int
        ensures RoundSum(fronts, agentNum, key) == Total(AllPairs(fronts), key)
      {
        WholeRoundSum(fronts, key);
      }
      bottomVersion := bottomVersion + 1;
    }

    /** Asks the nearest predecessors for their parameters. */
    method RequestBackup()
      requires 0 <= backupSize < serverNum && localIndex < serverNum == |serverIds|
      modifies `sent
      ensures sent == old(sent) + BackupRequests(localId, BackupTargets(serverIds, localIndex, backupSize))
    {
      for i := 1 to backupSize + 1
        invariant sent == old(sent) + BackupRequests(localId, BackupTargets(serverIds, localIndex, i - 1))
      {
        var target := Predecessor(localIndex, i, serverNum);
        LastRequest(localId, BackupTargets(serverIds, localIndex, i - 1), serverIds[target]);
        sent := sent + [Message(RequestKind, localId, serverIds[target], None)];
      }
    }

    /** Counts and stores an update, unless the buffer of its agent is full. */
    method BufferUpdate(index: nat, keys: seq<int>, values: seq<real>)
      requires S.Shaped(Cfg(), Snapshot()) && index < agentNum && |keys| <= |values|
      modifies `finishCount, `versionBuffer
      ensures Snapshot() == S.Buffered(old(Cfg()), old(Snapshot()), index, Pairs(keys, values))
    {
      if |versionBuffer[index]| >= consistencyBound {
        return;
      }
      var size := |versionBuffer[index]|;
      finishCount := finishCount[size := finishCount[size] + 1];
      var workerUpdate: KeyValueList := [];
      for i := 0 to |keys|
        invariant |workerUpdate| == i
        invariant forall j :: 0 <= j < i ==> workerUpdate[j] == (keys[j], values[j])
      {
        workerUpdate := workerUpdate + [(keys[i], values[i])];
      }
      assert workerUpdate == Pairs(keys, values);
      versionBuffer := versionBuffer[index := versionBuffer[index] + [workerUpdate]];
    }

    /** Moves on to the next version: merges one update of every agent and answers who waited. */
    method CompleteRound()
      requires S.ValidConfig(Cfg()) && S.Shaped(Cfg(), Snapshot()) && S.OnlyFullBlocked(Cfg(), Snapshot())
      requires forall i :: 0 <= i < agentNum ==> versionBuffer[i] != []
      requires 0 <= backupSize < serverNum && localIndex < serverNum == |serverIds|
      modifies `finishCount, `versionBuffer, `parameters, `bottomVersion, `pullRequests, `sent, `replies
      ensures Snapshot() == S.FinishRound(old(Cfg()), old(Snapshot()))
      ensures |old(replies)| <= |replies|
      ensures sent == old(sent) + ReplyMessages(localId, replies[|old(replies)|..])
                      + BackupRequests(localId, BackupTargets(serverIds, localIndex, backupSize))
    {
      hide S.FinishRound, S.UpdateParameter, BackupTargets, BackupRequests, ReplyMessages;
      S.RoundParts(Cfg(), Snapshot());
      finishCount := finishCount[1..] + [0];
      UpdateParameter();
      RespondToAll();
      RequestBackup();
    }

    /** Stores the update of a known agent and completes the round if it was the last one missing. */
    method AcceptPush(sender: int, keys: seq<int>, values: seq<real>)
      requires S.Inv(Cfg(), Snapshot()) && |keys| <= |values| && sender in idToIndex
      requires S.Servable(Cfg(), Snapshot(), S.Push(sender, Pairs(keys, values)))
      requires 0 <= backupSize < serverNum && localIndex < serverNum == |serverIds|
      modifies `finishCount, `versionBuffer, `parameters, `bottomVersion, `pullRequests, `sent, `replies
      ensures Snapshot() == S.ServePush(old(Cfg()), old(Snapshot()), sender, Pairs(keys, values))
      ensures |old(replies)| <= |replies|
      ensures sent == old(sent) + ReplyMessages(localId, replies[|old(replies)|..])
                      + if bottomVersion == old(bottomVersion) then []
                        else BackupRequests(localId, BackupTargets(serverIds, localIndex, backupSize))
    {
      S.PushSteps(Cfg(), Snapshot(), sender, Pairs(keys, values));
      BufferUpdate(idToIndex[sender], keys, values);
      if finishCount[0] == agentNum {
        CompleteRound();
      }
    }

    /** Stores a pushed update; if that completes a round, merges it and answers who waited. */
    method ServePush(sender: int, keys: seq<int>, values: seq<real>)
      requires Serving() && |keys| <= |values|
      requires S.Servable(Cfg(), Snapshot(), S.Push(sender, Pairs(keys, values)))
      modifies `finishCount, `versionBuffer, `parameters, `bottomVersion, `pullRequests, `sent, `replies
      ensures Snapshot() == S.ServePush(old(Cfg()), old(Snapshot()), sender, Pairs(keys, values))
      ensures Serving()
      ensures |old(replies)| <= |replies|
      ensures sent == old(sent) + ReplyMessages(localId, replies[|old(replies)|..])
                      + if bottomVersion == old(bottomVersion) then []
                        else BackupRequests(localId, BackupTargets(serverIds, localIndex, backupSize))
    {
      hide S.Inv, S.ServePush, S.Servable, BackupTargets, BackupRequests, ReplyMessages;
      S.PushKeepsInv(Cfg(), Snapshot(), sender, Pairs(keys, values));
      S.StrangersChangeNothing(Cfg(), Snapshot(), sender, Pairs(keys, values));
      if sender in agentIds {
        AcceptPush(sender, keys, values);
      } else {
        NoReplies(localId, replies);
      }
    }

    /** Reads the parameters of keys that may have wrapped around. */
    method ReadWrapped(keys: seq<int>) returns (values: seq<real>)
      requires |parameters| == parameterLength && S.SlotKeys(Cfg(), keys)
      ensures values == S.SlotValues(Cfg(), parameters, keys)
    {
      values := [];
      for i := 0 to |keys|
        invariant |values| == i
        invariant forall j :: 0 <= j < i ==> values[j] == parameters[LocalIndex(startKey, keyRange, keys[j])]
      {
        var index := keys[i] - startKey;
        if index < 0 {
          index := index + keyRange;
        }
        values := values + [parameters[index]];
      }
    }

    /** Answers a pull, or queues it while its agent's buffer is full. */
    method ServePull(sender: int, keys: seq<int>)
      requires Serving() && S.Servable(Cfg(), Snapshot(), S.Pull(sender, keys))
      modifies `pullRequests, `sent, `replies
      ensures Serving() && Snapshot() == S.ServePull(old(Cfg()), old(Snapshot()), sender, keys)
      ensures |old(replies)| <= |replies|
      ensures sent == old(sent) + ReplyMessages(localId, replies[|old(replies)|..])
    {
      S.StepKeepsInv(Cfg(), Snapshot(), S.Pull(sender, keys));
      if sender !in idToIndex {
        return;
      }
      if |versionBuffer[idToIndex[sender]]| >= consistencyBound {
        var blocked: seq<int> := [];
        for i := 0 to |keys|
          invariant blocked == keys[..i]
        {
          blocked := blocked + [keys[i]];
        }
        assert blocked == keys;
        pullRequests := pullRequests + [S.PullInfo(sender, blocked)];
      } else {
        var values := ReadWrapped(keys);
        sent := sent + [Message(RequestKind, localId, sender, Some(Request(KeyValue, keys, values)))];
        replies := replies + [S.Reply(sender, keys, values)];
      }
    }

    /** Stores the parameters that another server sent. */
    method Backup(sender: int, values: seq<real>)
      requires sender in servers && localIndex < serverNum && servers[sender] < serverNum
      requires BackupSlot(localIndex, servers[sender], serverNum) < |backupParameters|
      modifies `backupParameters
      ensures backupParameters
              == old(backupParameters)[BackupSlot(localIndex, servers[sender], serverNum) := values]
    {
      var slot := BackupSlot(localIndex, servers[sender], serverNum);
      if |backupParameters[slot]| != |values| {
        backupParameters := backupParameters[slot := S.ZeroParameters(|values|)];
      }
      for i := 0 to |values|
        invariant |backupParameters| == |old(backupParameters)|
        invariant |backupParameters[slot]| == |values| && backupParameters[slot][..i] == values[..i]
        invariant forall t :: 0 <= t < |backupParameters| && t != slot ==> backupParameters[t] == old(backupParameters)[t]
      {
        backupParameters := backupParameters[slot := backupParameters[slot][i := values[i]]];
      }
      assert backupParameters[slot] == values;
    }

    /** Sends this server's parameters to another server. */
    method RespondBackup(id: int)
      requires |parameters| == parameterLength
      modifies `sent
      ensures sent == old(sent) + [BackupReply(localId, id, KeysFrom(startKey, parameterLength), parameters)]
      ensures var m := sent[|old(sent)|];
              && m.kind == RequestKind && m.sendId == localId && m.recvId == id
              && m.request.Some? && m.request.value.values == parameters && |m.request.value.keys| == parameterLength
              && forall i :: 0 <= i < parameterLength ==> m.request.value.keys[i] == startKey + i
    {
      var keys: seq<int>, values: seq<real> := [], [];
      for i := 0 to parameterLength
        invariant keys == KeysFrom(startKey, i) && values == parameters[..i]
      {
        keys, values := keys + [startKey + i], values + [parameters[i]];
      }
      assert parameters[..parameterLength] == parameters;
      sent := sent + [Message(RequestKind, localId, id, Some(Request(KeyValue, keys, values)))];
    }

    lemma ServingIsShaped()
      requires Serving()
      ensures |parameters| == parameterLength
    {
    }

    /** One turn of the server's loop: does with a message what it is taken for. */
    method Receive(m: Message)
      requires Serving() && Readable(m)
      requires match Dispatch(servers.Keys, m)
               case Serve(event) => S.Servable(Cfg(), Snapshot(), event)
               case Store(sender, _) => BackupSlot(localIndex, servers[sender], serverNum) < backupSize
               case Reconfigure => false
               case _ => true
      modifies `finishCount, `versionBuffer, `parameters, `bottomVersion, `pullRequests, `sent, `replies, `backupParameters
      ensures Serving()
      ensures match Dispatch(servers.Keys, m)
              case Serve(event) =>
                && Snapshot() == S.Step(old(Cfg()), old(Snapshot()), event)
                && backupParameters == old(backupParameters)
                && |old(replies)| <= |replies|
                && sent == old(sent) + ReplyMessages(localId, replies[|old(replies)|..])
                           + if bottomVersion == old(bottomVersion) then []
                             else BackupRequests(localId, BackupTargets(serverIds, localIndex, backupSize))
              case Store(sender, values) =>
                && Snapshot() == old(Snapshot()) && sent == old(sent)
                && backupParameters
                   == old(backupParameters)[BackupSlot(localIndex, servers[sender], serverNum) := values]
              case Respond(sender) =>
                && Snapshot() == old(Snapshot()) && backupParameters == old(backupParameters)
                && sent == old(sent) + [BackupReply(localId, sender, KeysFrom(startKey, parameterLength), parameters)]
              case _ =>
                Snapshot() == old(Snapshot()) && backupParameters == old(backupParameters) && sent == old(sent)
    {
      hide S.Inv, S.ServePush, S.ServePull, S.Servable, BackupTargets, BackupRequests, ReplyMessages;
      ServingIsShaped();
      if m.sendId in servers {
        if m.request.Some? {
          Backup(m.sendId, m.request.value.values);
        } else {
          RespondBackup(m.sendId);
        }
        return;
      }
      if m.kind == RequestKind {
        var request := RequestOf(m);
        if request.requestType == KeyValue {
          ServePush(m.sendId, request.keys, request.values);
        } else if request.requestType == Key {
          ServePull(m.sendId, request.keys);
        }
      }
    }

    /** Puts predecessors' backups in front of the parameters until there are enough. */
    method ExtendParameter()
      requires 0 <= backupSize <= |backupParameters|
      modifies `parameters
      ensures parameters == Extend(old(parameters), backupParameters, parameterLength, 0, backupSize)
    {
      for i := 0 to backupSize
        invariant Extend(parameters, backupParameters, parameterLength, i, backupSize)
                  == Extend(old(parameters), backupParameters, parameterLength, 0, backupSize)
      {
        if |parameters| == parameterLength {
          break;
        }
        parameters := backupParameters[i] + parameters;
      }
    }

    /** Takes back the counts of one agent's updates and forgets the agent. */
    method DropAgent(id: int)
      requires id in idToIndex && S.Injective(idToIndex, |versionBuffer|)
      requires S.CountsExact(finishCount, versionBuffer)
      modifies `finishCount, `versionBuffer, `idToIndex
      ensures S.CountsExact(finishCount, versionBuffer) && |finishCount| == |old(finishCount)|
      ensures idToIndex == old(idToIndex) - {id} && S.Injective(idToIndex, |versionBuffer|)
      ensures versionBuffer == old(versionBuffer)[old(idToIndex)[id] := []]
    {
      var index := idToIndex[id];
      S.ClearedCountsExact(finishCount, versionBuffer, index);
      for i := 0 to |versionBuffer[index]|
        invariant |finishCount| == |old(finishCount)|
        invariant finishCount == S.Decremented(old(finishCount), i)
        invariant versionBuffer == old(versionBuffer) && idToIndex == old(idToIndex)
      {
        finishCount := finishCount[i := finishCount[i] - 1];
      }
      while |versionBuffer[index]| > 0
        invariant finishCount == S.Decremented(old(finishCount), |old(versionBuffer)[index]|)
        invariant idToIndex == old(idToIndex) && |versionBuffer| == |old(versionBuffer)|
        invariant versionBuffer == old(versionBuffer)[index := versionBuffer[index]]
        decreases |versionBuffer[index]|
      {
        versionBuffer := versionBuffer[index := versionBuffer[index][1..]];
      }
      idToIndex := idToIndex - {id};
    }

    /** Drops every agent that is not among the workers of a new configuration; `order` is the
        order in which the set of agents happens to be iterated. */
    method DropAgents(workerIds: seq<int>, order: seq<int>)
      requires agentIds == idToIndex.Keys && S.Injective(idToIndex, |versionBuffer|)
      requires forall id :: id in order <==> id in agentIds
      requires forall m, n :: 0 <= m < n < |order| ==> order[m] != order[n]
      requires S.CountsExact(finishCount, versionBuffer)
      modifies `finishCount, `versionBuffer, `idToIndex
      ensures S.CountsExact(finishCount, versionBuffer) && |finishCount| == |old(finishCount)|
      ensures S.Injective(idToIndex, |versionBuffer|) && |versionBuffer| == |old(versionBuffer)|
      ensures forall id :: id in idToIndex <==> id in old(idToIndex) && id in workerIds
      ensures forall id :: id in old(idToIndex) ==>
                if id in workerIds
                then idToIndex[id] == old(idToIndex)[id]
                     && versionBuffer[idToIndex[id]] == old(versionBuffer)[idToIndex[id]]
                else versionBuffer[old(idToIndex)[id]] == []
    {
      hide S.CountsExact;
      for n := 0 to |order|
        invariant S.CountsExact(finishCount, versionBuffer) && |finishCount| == |old(finishCount)|
        invariant S.Injective(idToIndex, |versionBuffer|) && |versionBuffer| == |old(versionBuffer)|
        invariant forall id :: id in idToIndex ==> id in old(idToIndex) && (id in order[n..] || id in workerIds)
        invariant forall id :: id in old(idToIndex) && (id in order[n..] || id in workerIds) ==> id in idToIndex
        invariant forall id :: id in idToIndex ==>
                    && idToIndex[id] == old(idToIndex)[id]
                    && versionBuffer[idToIndex[id]] == old(versionBuffer)[idToIndex[id]]
        invariant forall id :: id in old(idToIndex) && id !in idToIndex ==> versionBuffer[old(idToIndex)[id]] == []
      {
        assert order[n..] == [order[n]] + order[n + 1..];
        assert order[n] !in order[n + 1..];
        if order[n] !in workerIds {
          DropAgent(order[n]);
        }
      }
    }

    /** Gives the workers of a new configuration that are not known yet a buffer each; the loop
        still runs over the old number of agents. */
    method ReindexAgents(workerIds: seq<int>)
      requires agentNum <= |workerIds| && S.Injective(idToIndex, |versionBuffer|)
      requires S.CountsExact(finishCount, versionBuffer)
      modifies `idToIndex, `versionBuffer
      ensures S.Injective(idToIndex, |versionBuffer|) && S.CountsExact(finishCount, versionBuffer)
      ensures forall id :: id in idToIndex <==> id in old(idToIndex) || id in workerIds[..agentNum]
      ensures forall id :: id in old(idToIndex) ==> idToIndex[id] == old(idToIndex)[id]
      ensures old(versionBuffer) <= versionBuffer
      ensures forall id :: id in idToIndex && id !in old(idToIndex) ==>
                idToIndex[id] >= |old(versionBuffer)| && versionBuffer[idToIndex[id]] == []
    {
      for i := 0 to agentNum
        invariant S.Injective(idToIndex, |versionBuffer|) && S.CountsExact(finishCount, versionBuffer)
        invariant forall id :: id in idToIndex <==> id in old(idToIndex) || id in workerIds[..i]
        invariant forall id :: id in old(idToIndex) ==> idToIndex[id] == old(idToIndex)[id]
        invariant old(versionBuffer) <= versionBuffer
        invariant forall id :: id in idToIndex && id !in old(idToIndex) ==>
                    idToIndex[id] >= |old(versionBuffer)| && versionBuffer[idToIndex[id]] == []
      {
        assert workerIds[..i + 1] == workerIds[..i] + [workerIds[i]];
        if workerIds[i] !in idToIndex {
          S.AddedCountsExact(finishCount, versionBuffer);
          idToIndex := idToIndex[workerIds[i] := |versionBuffer|];
          versionBuffer := versionBuffer + [[]];
        }
      }
    }
  }
}
