/** Taking dead servers out of the partition: who owns which key afterwards. */
module Removal {
  import opened Circle
  import opened Messages
  import opened Partitioning
  import opened Search
  import opened Sequences

  /** The positions below m whose node is not dead, in order. */
  function Kept(ids: seq<int>, dead: set<int>, m: nat): (kept: seq<nat>)
    requires m <= |ids|
    ensures forall x :: 0 <= x < |kept| ==> kept[x] < m && ids[kept[x]] !in dead
    ensures forall x, y :: 0 <= x < y < |kept| ==> kept[x] < kept[y]
  {
    if m == 0 then []
    else if ids[m - 1] in dead then Kept(ids, dead, m - 1)
    else Kept(ids, dead, m - 1) + [m - 1]
  }

  /** The elements at some positions. */
  function Pick(s: seq<int>, positions: seq<nat>): (r: seq<int>)
    requires forall x :: 0 <= x < |positions| ==> positions[x] < |s|
    ensures |r| == |positions| && forall x :: 0 <= x < |r| ==> r[x] == s[positions[x]]
  {
    if positions == [] then []
    else Pick(s, positions[..|positions| - 1]) + [s[positions[|positions| - 1]]]
  }

  /** What is left of a list that runs along with the ids. */
  function Remaining(s: seq<int>, ids: seq<int>, dead: set<int>): seq<int>
    requires |s| == |ids|
  {
    Pick(s, Kept(ids, dead, |ids|))
  }

  /** One more death. */
  ghost predicate OneMore(dead': set<int>, dead: set<int>, d: int) {
    forall id :: id in dead' <==> id in dead || id == d
  }

  lemma {:induction false} KeptUnchanged(ids: seq<int>, dead': set<int>, dead: set<int>, d: int, m: nat)
    requires m <= |ids| && OneMore(dead', dead, d) && (d in dead || forall i :: 0 <= i < m ==> ids[i] != d)
    ensures Kept(ids, dead', m) == Kept(ids, dead, m)
  {
    if m > 0 {
      assert ids[m - 1] != d || d in dead;
      KeptUnchanged(ids, dead', dead, d, m - 1);
    }
  }

  /** The death of the node at `at`, which was kept as number p, takes its position out. */
  lemma {:induction false} KeptErases(ids: seq<int>, dead': set<int>, dead: set<int>, at: nat, m: nat, p: nat)
    requires at < m <= |ids| && OneMore(dead', dead, ids[at]) && forall i :: 0 <= i < m && i != at ==> ids[i] != ids[at]
    requires p < |Kept(ids, dead, m)| && Kept(ids, dead, m)[p] == at
    ensures Kept(ids, dead', m) == Erase(Kept(ids, dead, m), p)
  {
    hide Erase;
    var before := Kept(ids, dead, m - 1);
    if at == m - 1 {
      EraseAppend<nat>(before, m - 1, p);
      KeptUnchanged(ids, dead', dead, ids[at], m - 1);
    } else {
      assert ids[m - 1] in dead' <==> ids[m - 1] in dead;
      KeptErases(ids, dead', dead, at, m - 1, p);
      if ids[m - 1] !in dead {
        EraseAppend<nat>(before, m - 1, p);
      }
    }
  }

  /** What remains keeps its order and stays on the circle. */
  lemma RemainingIsValid(cuts: seq<int>, range: int, ids: seq<int>, dead: set<int>)
    requires ValidCuts(cuts, range) && |ids| == |cuts| && Kept(ids, dead, |ids|) != []
    ensures ValidCuts(Remaining(cuts, ids, dead), range)
    ensures |Remaining(cuts, ids, dead)| == |Remaining(ids, ids, dead)|
  {
    var kept := Kept(ids, dead, |ids|);
    assert forall x, y :: 0 <= x < y < |kept| ==> cuts[kept[x]] <= cuts[kept[y]];
  }

  lemma {:induction false} SurvivorIsKept(ids: seq<int>, dead: set<int>, m: nat, i: nat) returns (y: nat)
    requires i < m <= |ids| && ids[i] !in dead
    ensures y < |Kept(ids, dead, m)| && Kept(ids, dead, m)[y] == i
  {
    if i == m - 1 {
      y := |Kept(ids, dead, m)| - 1;
    } else {
      y := SurvivorIsKept(ids, dead, m - 1, i);
    }
  }

  /** Going down from o, around the circle, one meets x no later than i. */
  predicate MetFirst(n: nat, o: nat, x: nat, i: nat) {
    if x <= o then i <= x || o < i else i <= x && (o == n - 1 || o < i)
  }

  lemma MetFirstIsNearer(n: nat, o: nat, x: nat, i: nat)
    requires o < n && x < n && i < n && MetFirst(n, o, x, i)
    ensures Distance(x, o, n) <= Distance(i, o, n)
  {
  }

  /** Among the survivors, the new owner is the first one met from the old owner on. */
  lemma NewOwnerIsMetFirst(cuts: seq<int>, range: int, ids: seq<int>, dead: set<int>, key: int, i: nat)
    requires ValidCuts(cuts, range) && |ids| == |cuts| && Kept(ids, dead, |ids|) != [] && 0 <= key < range
    requires i < |ids| && ids[i] !in dead
    ensures var o := GetServer(cuts, range, key);
            var o' := GetServer(Remaining(cuts, ids, dead), range, key);
            && 0 <= o < |cuts| && 0 <= o' < |Kept(ids, dead, |ids|)|
            && MetFirst(|ids|, o, Kept(ids, dead, |ids|)[o'], i)
  {
    hide GetServer, Kept;
    var kept := Kept(ids, dead, |ids|);
    var cuts' := Remaining(cuts, ids, dead);
    RemainingIsValid(cuts, range, ids, dead);
    OwnerHasLastCut(cuts, range, key);
    OwnerHasLastCut(cuts', range, key);
    var y := SurvivorIsKept(ids, dead, |ids|, i);
    assert kept[0] <= i <= kept[|kept| - 1];
    var o, o' := GetServer(cuts, range, key), GetServer(cuts', range, key);
    assert cuts'[0] == cuts[kept[0]] && cuts'[o'] == cuts[kept[o']] && cuts'[y] == cuts[i];
    if key < cuts'[0] {
      assert key < cuts[0] || o < kept[0];
    } else {
      assert kept[o'] <= o;
      assert i <= kept[o'] || key < cuts[i];
    }
  }

  /** Minimal movement: a key whose owner survives keeps it, and any other key goes to the nearest
      surviving cyclic predecessor of its owner. */
  lemma OrphansGoToNearestPredecessor(cuts: seq<int>, range: int, ids: seq<int>, dead: set<int>, key: int) returns (j: nat)
    requires ValidCuts(cuts, range) && |ids| == |cuts| && Kept(ids, dead, |ids|) != [] && 0 <= key < range
    ensures j < |ids| && ValidCuts(Remaining(cuts, ids, dead), range)
    ensures var o := GetServer(cuts, range, key);
            var o' := GetServer(Remaining(cuts, ids, dead), range, key);
            && 0 <= o < |ids| && 0 <= o' < |Remaining(ids, ids, dead)|
            && Remaining(ids, ids, dead)[o'] == ids[Predecessor(o, j, |ids|)] && ids[Predecessor(o, j, |ids|)] !in dead
            && (forall k :: 0 <= k < j ==> ids[Predecessor(o, k, |ids|)] in dead)
            && (ids[o] !in dead ==> Remaining(ids, ids, dead)[o'] == ids[o])
  {
    hide GetServer, ValidCuts, Kept, Pick, MetFirst;
    var kept := Kept(ids, dead, |ids|);
    RemainingIsValid(cuts, range, ids, dead);
    NewOwnerIsMetFirst(cuts, range, ids, dead, key, kept[0]);
    var o, o' := GetServer(cuts, range, key), GetServer(Remaining(cuts, ids, dead), range, key);
    var x := kept[o'];
    forall i | 0 <= i < |ids| && ids[i] !in dead
      ensures Distance(x, o, |ids|) <= Distance(i, o, |ids|)
    {
      NewOwnerIsMetFirst(cuts, range, ids, dead, key, i);
      MetFirstIsNearer(|ids|, o, x, i);
    }
    j := Distance(x, o, |ids|);
    GapIsDead(ids, dead, o, x);
  }

  lemma GapIsDead(ids: seq<int>, dead: set<int>, o: nat, x: nat)
    requires o < |ids| && x < |ids|
    requires forall i :: 0 <= i < |ids| && ids[i] !in dead ==> Distance(x, o, |ids|) <= Distance(i, o, |ids|)
    ensures Predecessor(o, Distance(x, o, |ids|), |ids|) == x
    ensures forall k :: 0 <= k < Distance(x, o, |ids|) ==> ids[Predecessor(o, k, |ids|)] in dead
  {
    forall k | 0 <= k < Distance(x, o, |ids|)
      ensures ids[Predecessor(o, k, |ids|)] in dead
    {
      assert Distance(Predecessor(o, k, |ids|), o, |ids|) == k;
    }
  }

  // ---- One removal after the other ----

  lemma {:induction false} NoneDead(s: seq<int>, ids: seq<int>)
    requires |s| == |ids|
    ensures Remaining(s, ids, {}) == s
  {
    AllKept(ids, |ids|);
  }

  lemma {:induction false} AllKept(ids: seq<int>, m: nat)
    requires m <= |ids|
    ensures |Kept(ids, {}, m)| == m && forall i :: 0 <= i < m ==> Kept(ids, {}, m)[i] == i
  {
    if m > 0 {
      AllKept(ids, m - 1);
    }
  }

  lemma {:induction false} KeptAllIff(ids: seq<int>, dead: set<int>, m: nat)
    requires m <= |ids|
    ensures |Kept(ids, dead, m)| <= m
    ensures |Kept(ids, dead, m)| == m <==> forall i :: 0 <= i < m ==> ids[i] !in dead
  {
    if m > 0 {
      KeptAllIff(ids, dead, m - 1);
    }
  }

  /** Nothing is missing from a list exactly when none of its nodes is dead. */
  lemma AllLeftIff(ids: seq<int>, dead: set<int>)
    ensures |Remaining(ids, ids, dead)| >= |ids| <==> forall id :: id in ids ==> id !in dead
  {
    KeptAllIff(ids, dead, |ids|);
    if forall id :: id in ids ==> id !in dead {
      forall i | 0 <= i < |ids|
        ensures ids[i] !in dead
      {
        assert ids[i] in ids;
      }
    }
  }

  lemma PickErases(s: seq<int>, positions: seq<nat>, p: nat)
    requires p < |positions| && forall x :: 0 <= x < |positions| ==> positions[x] < |s|
    ensures Pick(s, Erase(positions, p)) == Erase(Pick(s, positions), p)
  {
  }

  /** What one more death does to a list that runs along with the ids: it takes out the element at
      the place of the node among the remaining ones, or nothing if the node is not there. */
  lemma RemovedOrAbsent(s: seq<int>, ids: seq<int>, dead: set<int>, dead': set<int>, id: int, p: nat)
    requires |s| == |ids| && DistinctElements(ids) && OneMore(dead', dead, id)
    requires p <= |Remaining(ids, ids, dead)|
    requires p < |Remaining(ids, ids, dead)| ==> Remaining(ids, ids, dead)[p] == id
    requires p == |Remaining(ids, ids, dead)| <==> id !in Remaining(ids, ids, dead)
    ensures |Remaining(s, ids, dead)| == |Remaining(ids, ids, dead)|
    ensures Remaining(s, ids, dead')
            == if p < |Remaining(s, ids, dead)| then Erase(Remaining(s, ids, dead), p) else Remaining(s, ids, dead)
  {
    var kept := Kept(ids, dead, |ids|);
    if p < |kept| {
      KeptErases(ids, dead', dead, kept[p], |ids|, p);
      PickErases(s, kept, p);
    } else {
      forall i | 0 <= i < |ids| && ids[i] !in dead
        ensures ids[i] in Remaining(ids, ids, dead)
      {
        var y := SurvivorIsKept(ids, dead, |ids|, i);
        assert Remaining(ids, ids, dead)[y] == ids[i];
      }
      KeptUnchanged(ids, dead', dead, id, |ids|);
    }
  }

  lemma RemainingIsPart(ids: seq<int>, dead: set<int>)
    requires DistinctElements(ids)
    ensures DistinctElements(Remaining(ids, ids, dead))
    ensures forall id :: id in Remaining(ids, ids, dead) ==> id in ids && id !in dead
  {
  }
}

/** The master's record of the cluster, and what it makes of it when nodes die. */
module TaskConfigModel {
  import opened Framing
  import opened Messages
  import opened Removal
  import opened Search
  import opened Sequences

  function Nodes(ids: seq<int>, n: nat): set<int>
    requires n <= |ids|
  {
    if n == 0 then {} else Nodes(ids, n - 1) + {ids[n - 1]}
  }

  lemma NodesGrow(ids: seq<int>, n: nat)
    requires n < |ids|
    ensures OneMore(Nodes(ids, n + 1), Nodes(ids, n), ids[n])
  {
  }

  class TaskConfig {
    var workerNum: nat
    var serverNum: nat
    var keyRange: nat
    var backupSize: int
    var bound: nat
    var partition: seq<int>
    var serverIds: seq<int>
    var agentIds: seq<int>
    var masterIds: seq<int>
    var idToAddr: map<int, string>
    var nodeId: nat
    var configChanged: bool

    /** Ids are given out once, without gaps, and every listed node has one role. */
    ghost predicate Valid()
      reads this
    {
      && (forall id :: id in idToAddr <==> 0 <= id < nodeId)
      && DistinctElements(serverIds) && DistinctElements(agentIds) && DistinctElements(masterIds)
      && (forall id :: id in serverIds ==> 0 <= id < nodeId && id !in agentIds && id !in masterIds)
      && (forall id :: id in agentIds ==> 0 <= id < nodeId && id !in masterIds)
      && (forall id :: id in masterIds ==> 0 <= id < nodeId)
    }

    constructor Initialize(workerNum: nat, serverNum: nat, keyRange: nat, bound: nat, backupSize: int)
      ensures Valid() && serverIds == agentIds == masterIds == partition == [] && !configChanged
      ensures this.workerNum == workerNum && this.serverNum == serverNum && this.keyRange == keyRange
      ensures this.bound == bound && this.backupSize == backupSize
    {
      this.workerNum, this.serverNum, this.keyRange := workerNum, serverNum, keyRange;
      this.bound, this.backupSize := bound, backupSize;
      partition, serverIds, agentIds, masterIds := [], [], [], [];
      idToAddr, nodeId, configChanged := map[], 0, false;
    }

    method AppendServer(ip: string, port: int)
      requires Valid()
      modifies `serverIds, `idToAddr, `nodeId
      ensures Valid() && serverIds == old(serverIds) + [old(nodeId)] && nodeId == old(nodeId) + 1
      ensures idToAddr == old(idToAddr)[old(nodeId) := ip + ":" + Printed(port)]
    {
      DistinctAppend(serverIds, nodeId);
      serverIds := serverIds + [nodeId];
      idToAddr := idToAddr[nodeId := ip + ":" + Printed(port)];
      nodeId := nodeId + 1;
    }

    method AppendAgent(ip: string, port: int)
      requires Valid()
      modifies `agentIds, `idToAddr, `nodeId
      ensures Valid() && agentIds == old(agentIds) + [old(nodeId)] && nodeId == old(nodeId) + 1
      ensures idToAddr == old(idToAddr)[old(nodeId) := ip + ":" + Printed(port)]
    {
      DistinctAppend(agentIds, nodeId);
      agentIds := agentIds + [nodeId];
      idToAddr := idToAddr[nodeId := ip + ":" + Printed(port)];
      nodeId := nodeId + 1;
    }

    method AppendMaster(addr: string)
      requires Valid()
      modifies `masterIds, `idToAddr, `nodeId
      ensures Valid() && masterIds == old(masterIds) + [old(nodeId)] && nodeId == old(nodeId) + 1
      ensures idToAddr == old(idToAddr)[old(nodeId) := addr]
    {
      DistinctAppend(masterIds, nodeId);
      masterIds := masterIds + [nodeId];
      idToAddr := idToAddr[nodeId := addr];
      nodeId := nodeId + 1;
    }

    /** Draws one cut point per server, behind those that are already there, and sorts. */
    method GeneratePartition(draws: seq<int>)
      requires |draws| == serverNum && forall i :: 0 <= i < |draws| ==> 1 <= draws[i] <= keyRange - 2
      modifies `partition
      ensures Sorted(partition) && multiset(partition) == multiset(old(partition)) + multiset(draws)
      ensures old(partition) == [] ==>
                |partition| == serverNum && forall i :: 0 <= i < serverNum ==> 1 <= partition[i] <= keyRange - 2
    {
      for i := 0 to serverNum
        invariant partition == old(partition) + draws[..i]
      {
        partition := partition + [draws[i]];
      }
      assert draws[..serverNum] == draws;
      ghost var unsorted := partition;
      partition := Sort(partition);
      forall i | 0 <= i < |partition|
        ensures partition[i] in unsorted
      {
        assert partition[i] in multiset(partition);
      }
    }

    /** std::find. */
    static method Find(ids: seq<int>, id: int) returns (index: nat)
      ensures index <= |ids| && (index < |ids| ==> ids[index] == id)
      ensures index == |ids| <==> id !in ids
    {
      index := 0;
      while index < |ids| && ids[index] != id
        invariant index <= |ids| && id !in ids[..index]
      {
        index := index + 1;
      }
    }

    ghost predicate Left(servers: seq<int>, agents: seq<int>, cuts: seq<int>, dead: set<int>)
      requires |cuts| == |servers|
      reads `serverIds, `agentIds, `partition
    {
      && serverIds == Remaining(servers, servers, dead)
      && partition == Remaining(cuts, servers, dead)
      && agentIds == Remaining(agents, agents, dead)
    }

    /** Takes dead agents and servers out; a server takes its cut point with it. The number of
        servers that the configuration announces stays as it was. */
    method FixConfig(deadNodes: seq<int>)
      requires Valid() && |partition| == |serverIds|
      modifies `serverIds, `agentIds, `partition, `configChanged
      ensures Valid() && configChanged == (old(configChanged) || deadNodes != [])
      ensures Left(old(serverIds), old(agentIds), old(partition), Nodes(deadNodes, |deadNodes|))
    {
      hide Remaining, DistinctElements;
      NothingLeft();
      RemainingIsPart(serverIds, Nodes(deadNodes, |deadNodes|));
      RemainingIsPart(agentIds, Nodes(deadNodes, |deadNodes|));
      if |deadNodes| == 0 {
        return;
      }
      configChanged := true;
      RemoveNodes(deadNodes, serverIds, agentIds, partition);
    }

    lemma NothingLeft()
      requires |partition| == |serverIds|
      ensures Left(serverIds, agentIds, partition, {})
    {
      NoneDead(serverIds, serverIds);
      NoneDead(partition, serverIds);
      NoneDead(agentIds, agentIds);
    }

    method RemoveNodes(deadNodes: seq<int>, ghost servers: seq<int>, ghost agents: seq<int>, ghost cuts: seq<int>)
      requires DistinctElements(servers) && DistinctElements(agents) && |cuts| == |servers|
      requires forall a :: a in agents ==> a !in servers
      requires Left(servers, agents, cuts, {})
      modifies `serverIds, `agentIds, `partition
      ensures Left(servers, agents, cuts, Nodes(deadNodes, |deadNodes|))
    {
      hide Remaining, DistinctElements, OneMore;
      for i := 0 to |deadNodes|
        invariant Left(servers, agents, cuts, Nodes(deadNodes, i))
      {
        NodesGrow(deadNodes, i);
        RemoveNode(deadNodes[i], servers, agents, cuts, Nodes(deadNodes, i), Nodes(deadNodes, i + 1));
      }
    }

    method RemoveNode(id: int, ghost servers: seq<int>, ghost agents: seq<int>, ghost cuts: seq<int>,
                      ghost dead: set<int>, ghost dead': set<int>)
      requires DistinctElements(servers) && DistinctElements(agents) && |cuts| == |servers|
      requires forall a :: a in agents ==> a !in servers
      requires Left(servers, agents, cuts, dead) && OneMore(dead', dead, id)
      modifies `serverIds, `agentIds, `partition
      ensures Left(servers, agents, cuts, dead')
    {
      hide Remaining, DistinctElements, OneMore;
      var agent := Find(agentIds, id);
      RemovedOrAbsent(agents, agents, dead, dead', id, agent);
      var server := Find(serverIds, id);
      RemovedOrAbsent(servers, servers, dead, dead', id, server);
      RemovedOrAbsent(cuts, servers, dead, dead', id, server);
      RemainingIsPart(agents, dead);
      RemainingIsPart(servers, dead);
      if agent < |agentIds| {
        agentIds := Erase(agentIds, agent);
      } else if server < |serverIds| {
        serverIds := Erase(serverIds, server);
        partition := Erase(partition, server);
      }
    }

    predicate Ready()
      reads `serverIds, `agentIds, `serverNum, `workerNum
    {
      |serverIds| == serverNum && |agentIds| == workerNum
    }

    /** The configuration as a message. The addresses are listed by id, so that an id can be used
        as a position in the list. */
    method ToMessage() returns (config: ConfigMessage)
      requires Valid()
      ensures config.workerNum == workerNum && config.serverNum == serverNum && config.bound == bound
      ensures config.keyRange == keyRange && config.backupSize == backupSize && config.partition == partition
      ensures config.serverIds == serverIds && config.workerIds == agentIds && config.masterIds == masterIds
      ensures |config.nodeAddresses| == nodeId && forall id :: id in idToAddr ==> config.nodeAddresses[id] == idToAddr[id]
    {
      var addresses: seq<string> := [];
      for id := 0 to nodeId
        invariant |addresses| == id && forall k :: 0 <= k < id ==> addresses[k] == idToAddr[k]
      {
        addresses := addresses + [idToAddr[id]];
      }
      for id := 0 to nodeId
        invariant |addresses| == nodeId && forall k :: 0 <= k < nodeId ==> addresses[k] == idToAddr[k]
      {
        addresses := addresses[id := idToAddr[id]];
      }
      var servers, workers, masters, cuts := [], [], [], [];
      for i := 0 to |serverIds|
        invariant servers == serverIds[..i]
      {
        servers := servers + [serverIds[i]];
      }
      for i := 0 to |agentIds|
        invariant workers == agentIds[..i]
      {
        workers := workers + [agentIds[i]];
      }
      for i := 0 to |masterIds|
        invariant masters == masterIds[..i]
      {
        masters := masters + [masterIds[i]];
      }
      for i := 0 to |partition|
        invariant cuts == partition[..i]
      {
        cuts := cuts + [partition[i]];
      }
      config := ConfigMessage(workerNum, serverNum, bound, keyRange, backupSize, addresses, servers, workers, masters, cuts);
    }

    /** Servers can use the message of a configuration that was once complete if and only if no
        server and no agent has died since: neither announced number is lowered. */
    lemma UsableIff(config: ConfigMessage, servers: seq<int>, agents: seq<int>, cuts: seq<int>, dead: set<int>)
      requires Valid() && |cuts| == |servers| == serverNum && |agents| == workerNum && Left(servers, agents, cuts, dead)
      requires forall i :: 0 <= i < |cuts| ==> 0 <= cuts[i] < keyRange
      requires config.serverNum == serverNum && config.workerNum == workerNum && config.keyRange == keyRange
      requires config.serverIds == serverIds && config.workerIds == agentIds && config.partition == partition
      ensures Usable(config) <==> forall id :: id in servers || id in agents ==> id !in dead
    {
      var kept := Kept(servers, dead, |servers|);
      AllLeftIff(servers, dead);
      AllLeftIff(agents, dead);
      assert |serverIds| == |partition| == |kept|;
      assert forall i :: 0 <= i < |kept| ==> partition[i] == cuts[kept[i]];
    }
  }
}
