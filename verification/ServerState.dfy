/** One server as a value: its state, and what each kind of message does to it. */
module ServerState {
  import opened Averaging
  import opened Messages
  import opened Partitioning

  /** What a server is configured with. Agents are numbered by idToIndex. */
  datatype Config = Config(bound: nat, agentNum: nat, idToIndex: map<int, nat>,
                           startKey: int, length: nat, keyRange: nat)

  predicate ValidConfig(c: Config) {
    c.bound >= 1 && c.agentNum >= 1 && forall id :: id in c.idToIndex ==> c.idToIndex[id] < c.agentNum
  }

  datatype PullInfo = PullInfo(id: int, keys: seq<int>)
  datatype Reply = Reply(id: int, keys: seq<int>, values: seq<real>)

  datatype State = State(
    parameters: seq<real>,
    bottomVersion: nat,
    finishCount: seq<int>,
    versionBuffer: seq<seq<KeyValueList>>,
    pullRequests: seq<PullInfo>,
    replies: seq<Reply>)

  datatype Event = Push(sender: int, update: KeyValueList) | Pull(sender: int, keys: seq<int>)

  // ---- Queues ----

  /** How many of the first m buffers hold more than k updates. */
  function CountAbove(buffers: seq<seq<KeyValueList>>, m: nat, k: nat): (count: nat)
    requires m <= |buffers|
    ensures count <= m
  {
    if m == 0 then 0 else CountAbove(buffers, m - 1, k) + if |buffers[m - 1]| > k then 1 else 0
  }

  function Fronts(buffers: seq<seq<KeyValueList>>): (fronts: seq<KeyValueList>)
    requires forall i :: 0 <= i < |buffers| ==> buffers[i] != []
    ensures |fronts| == |buffers|
    ensures forall i :: 0 <= i < |buffers| ==> fronts[i] == buffers[i][0]
  {
    if buffers == [] then [] else Fronts(buffers[..|buffers| - 1]) + [buffers[|buffers| - 1][0]]
  }

  function Popped(buffers: seq<seq<KeyValueList>>): (popped: seq<seq<KeyValueList>>)
    requires forall i :: 0 <= i < |buffers| ==> buffers[i] != []
    ensures |popped| == |buffers|
    ensures forall i :: 0 <= i < |buffers| ==> popped[i] == buffers[i][1..]
  {
    if buffers == [] then [] else Popped(buffers[..|buffers| - 1]) + [buffers[|buffers| - 1][1..]]
  }

  // ---- Where a key is kept ----

  predicate PlainKey(c: Config, key: int) {
    c.startKey <= key < c.startKey + c.length
  }

  predicate PlainUpdate(c: Config, update: KeyValueList) {
    forall i :: 0 <= i < |update| ==> PlainKey(c, update[i].0)
  }

  predicate PlainKeys(c: Config, keys: seq<int>) {
    forall i :: 0 <= i < |keys| ==> PlainKey(c, keys[i])
  }

  predicate SlotKeys(c: Config, keys: seq<int>) {
    forall i :: 0 <= i < |keys| ==> 0 <= LocalIndex(c.startKey, c.keyRange, keys[i]) < c.length
  }

  // ---- The invariant between two messages ----

  predicate Shaped(c: Config, s: State) {
    && |s.parameters| == c.length
    && |s.finishCount| == c.bound
    && |s.versionBuffer| == c.agentNum
    && (forall i :: 0 <= i < c.agentNum ==> |s.versionBuffer[i]| <= c.bound)
    && (forall i, r :: 0 <= i < c.agentNum && 0 <= r < |s.versionBuffer[i]| ==> PlainUpdate(c, s.versionBuffer[i][r]))
  }

  /** finishCount[k] is the number of agents with more than k buffered updates. */
  predicate Counted(c: Config, s: State)
    requires Shaped(c, s)
  {
    forall k :: 0 <= k < c.bound ==> s.finishCount[k] == CountAbove(s.versionBuffer, c.agentNum, k)
  }

  /** Every blocked pull is by an agent whose buffer is full. */
  predicate OnlyFullBlocked(c: Config, s: State)
    requires Shaped(c, s) && ValidConfig(c)
  {
    forall q :: 0 <= q < |s.pullRequests| ==>
      && s.pullRequests[q].id in c.idToIndex
      && |s.versionBuffer[c.idToIndex[s.pullRequests[q].id]]| == c.bound
      && PlainKeys(c, s.pullRequests[q].keys)
  }

  predicate Inv(c: Config, s: State) {
    && ValidConfig(c)
    && Shaped(c, s)
    && Counted(c, s)
    && s.finishCount[0] < c.agentNum
    && OnlyFullBlocked(c, s)
  }

  lemma {:induction false} AllAbove(buffers: seq<seq<KeyValueList>>, m: nat, k: nat)
    requires m <= |buffers|
    ensures CountAbove(buffers, m, k) == m <==> forall i :: 0 <= i < m ==> |buffers[i]| > k
  {
    if m > 0 {
      AllAbove(buffers, m - 1, k);
    }
  }

  /** The agents among the first m with more than k buffered updates. */
  function Above(buffers: seq<seq<KeyValueList>>, m: nat, k: nat): set<int>
    requires m <= |buffers|
  {
    set i | 0 <= i < m && |buffers[i]| > k
  }

  lemma {:induction false} CountIsCardinality(buffers: seq<seq<KeyValueList>>, m: nat, k: nat)
    requires m <= |buffers|
    ensures CountAbove(buffers, m, k) == |Above(buffers, m, k)|
  {
    if m > 0 {
      CountIsCardinality(buffers, m - 1, k);
      var before := Above(buffers, m - 1, k);
      assert Above(buffers, m, k) == if |buffers[m - 1]| > k then before + {m - 1} else before;
      assert m - 1 !in before;
    }
  }

  // ---- The steps ----

  function ZeroParameters(length: nat): (zeros: seq<real>)
    ensures |zeros| == length && forall j :: 0 <= j < length ==> zeros[j] == 0.0
  {
    if length == 0 then [] else ZeroParameters(length - 1) + [0.0]
  }

  function ZeroCounts(bound: nat): (zeros: seq<int>)
    ensures |zeros| == bound && forall k :: 0 <= k < bound ==> zeros[k] == 0
  {
    if bound == 0 then [] else ZeroCounts(bound - 1) + [0]
  }

  function EmptyBuffers(n: nat): (buffers: seq<seq<KeyValueList>>)
    ensures |buffers| == n && forall i :: 0 <= i < n ==> buffers[i] == []
  {
    if n == 0 then [] else EmptyBuffers(n - 1) + [[]]
  }

  function Init(c: Config): State {
    State(ZeroParameters(c.length), 0, ZeroCounts(c.bound), EmptyBuffers(c.agentNum), [], [])
  }

  /** The first n parameters after the average of a round has been added. */
  function Averaged(parameters: seq<real>, round: seq<KeyValueList>, startKey: int, n: nat): (r: seq<real>)
    requires n <= |parameters| && |round| >= 1
    ensures |r| == n
    ensures forall j :: 0 <= j < n ==> r[j] == parameters[j] + RoundSum(round, |round|, startKey + j) / |round| as real
  {
    if n == 0 then
      []
    else
      Averaged(parameters, round, startKey, n - 1)
      + [parameters[n - 1] + RoundSum(round, |round|, startKey + n - 1) / |round| as real]
  }

  predicate RoundComplete(c: Config, s: State)
    requires ValidConfig(c) && Shaped(c, s) && Counted(c, s)
    ensures RoundComplete(c, s) <==> forall i :: 0 <= i < c.agentNum ==> s.versionBuffer[i] != []
  {
    AllAbove(s.versionBuffer, c.agentNum, 0);
    assert forall i :: 0 <= i < c.agentNum ==> (|s.versionBuffer[i]| > 0 <==> s.versionBuffer[i] != []);
    s.finishCount[0] == c.agentNum
  }

  /** UpdateParameter: one update of every agent is averaged into the parameters. */
  function UpdateParameter(c: Config, s: State): State
    requires ValidConfig(c) && Shaped(c, s) && forall i :: 0 <= i < c.agentNum ==> s.versionBuffer[i] != []
  {
    s.(parameters := Averaged(s.parameters, Fronts(s.versionBuffer), c.startKey, c.length),
       versionBuffer := Popped(s.versionBuffer),
       bottomVersion := s.bottomVersion + 1)
  }

  /** The values that answer a blocked pull. */
  function PlainValues(c: Config, parameters: seq<real>, keys: seq<int>): (values: seq<real>)
    requires |parameters| == c.length && PlainKeys(c, keys)
    ensures |values| == |keys|
    ensures forall i :: 0 <= i < |keys| ==> values[i] == parameters[keys[i] - c.startKey]
  {
    if keys == [] then
      []
    else
      PlainValues(c, parameters, keys[..|keys| - 1]) + [parameters[keys[|keys| - 1] - c.startKey]]
  }

  /** The values that answer a pull at once. */
  function SlotValues(c: Config, parameters: seq<real>, keys: seq<int>): (values: seq<real>)
    requires |parameters| == c.length && SlotKeys(c, keys)
    ensures |values| == |keys|
    ensures forall i :: 0 <= i < |keys| ==> values[i] == parameters[LocalIndex(c.startKey, c.keyRange, keys[i])]
  {
    if keys == [] then
      []
    else
      SlotValues(c, parameters, keys[..|keys| - 1]) + [parameters[LocalIndex(c.startKey, c.keyRange, keys[|keys| - 1])]]
  }

  function Answers(c: Config, parameters: seq<real>, pulls: seq<PullInfo>): (replies: seq<Reply>)
    requires |parameters| == c.length
    requires forall q :: 0 <= q < |pulls| ==> PlainKeys(c, pulls[q].keys)
    ensures |replies| == |pulls|
    ensures forall q :: 0 <= q < |pulls| ==>
              replies[q] == Reply(pulls[q].id, pulls[q].keys, PlainValues(c, parameters, pulls[q].keys))
  {
    if pulls == [] then
      []
    else
      [Reply(pulls[0].id, pulls[0].keys, PlainValues(c, parameters, pulls[0].keys))]
      + Answers(c, parameters, pulls[1..])
  }

  /** RespondToAll: every blocked pull is answered, oldest first. */
  function RespondToAll(c: Config, s: State): State
    requires |s.parameters| == c.length
    requires forall q :: 0 <= q < |s.pullRequests| ==> PlainKeys(c, s.pullRequests[q].keys)
  {
    s.(replies := s.replies + Answers(c, s.parameters, s.pullRequests), pullRequests := [])
  }

  /** The part of ServePush that stores the update. */
  function Buffered(c: Config, s: State, i: nat, update: KeyValueList): State
    requires Shaped(c, s) && i < c.agentNum
  {
    var size := |s.versionBuffer[i]|;
    if size >= c.bound then
      s
    else
      s.(finishCount := s.finishCount[size := s.finishCount[size] + 1],
         versionBuffer := s.versionBuffer[i := s.versionBuffer[i] + [update]])
  }

  lemma {:induction false} CountAfterAppend(buffers: seq<seq<KeyValueList>>, i: nat, update: KeyValueList, m: nat, k: nat)
    requires i < |buffers| && m <= |buffers|
    ensures CountAbove(buffers[i := buffers[i] + [update]], m, k)
            == CountAbove(buffers, m, k) + if i < m && k == |buffers[i]| then 1 else 0
  {
    if m > 0 {
      CountAfterAppend(buffers, i, update, m - 1, k);
    }
  }

  lemma BufferedKeepsCounts(c: Config, s: State, i: nat, update: KeyValueList)
    requires Inv(c, s) && i < c.agentNum && (|s.versionBuffer[i]| < c.bound ==> PlainUpdate(c, update))
    ensures Shaped(c, Buffered(c, s, i, update)) && Counted(c, Buffered(c, s, i, update))
    ensures OnlyFullBlocked(c, Buffered(c, s, i, update))
  {
    forall k | 0 <= k < c.bound
      ensures CountAbove(Buffered(c, s, i, update).versionBuffer, c.agentNum, k)
              == Buffered(c, s, i, update).finishCount[k]
    {
      CountAfterAppend(s.versionBuffer, i, update, c.agentNum, k);
    }
  }

  predicate Accepted(c: Config, s: State, e: Event)
    requires ValidConfig(c) && Shaped(c, s)
  {
    e.sender in c.idToIndex && |s.versionBuffer[c.idToIndex[e.sender]]| < c.bound
  }

  /** What the server relies on: an update it stores, and a pull it blocks, have keys at plain
      offsets; a pull it answers at once may also have keys that wrapped around. */
  predicate Servable(c: Config, s: State, e: Event)
    requires ValidConfig(c) && Shaped(c, s)
  {
    e.sender in c.idToIndex ==>
      match e
      case Push(_, update) => Accepted(c, s, e) ==> PlainUpdate(c, update)
      case Pull(_, keys) => if Accepted(c, s, e) then SlotKeys(c, keys) else PlainKeys(c, keys)
  }

  /** A completed round leaves the queue of counts one version further. */
  function FinishRound(c: Config, s: State): State
    requires ValidConfig(c) && Shaped(c, s) && OnlyFullBlocked(c, s)
    requires forall i :: 0 <= i < c.agentNum ==> s.versionBuffer[i] != []
  {
    RespondToAll(c, UpdateParameter(c, s.(finishCount := s.finishCount[1..] + [0])))
  }

  /** The parts of finishing a round, in order. */
  lemma RoundParts(c: Config, s: State)
    requires ValidConfig(c) && Shaped(c, s) && OnlyFullBlocked(c, s)
    requires forall i :: 0 <= i < c.agentNum ==> s.versionBuffer[i] != []
    ensures var s1 := s.(finishCount := s.finishCount[1..] + [0]);
            && Shaped(c, s1)
            && var s2 := UpdateParameter(c, s1);
               && |s2.parameters| == c.length
               && (forall q :: 0 <= q < |s2.pullRequests| ==> PlainKeys(c, s2.pullRequests[q].keys))
               && FinishRound(c, s) == RespondToAll(c, s2)
  {
  }

  function ServePush(c: Config, s: State, sender: int, update: KeyValueList): State
    requires Inv(c, s) && Servable(c, s, Push(sender, update))
  {
    if sender !in c.idToIndex then
      s
    else
      BufferedKeepsCounts(c, s, c.idToIndex[sender], update);
      var s1 := Buffered(c, s, c.idToIndex[sender], update);
      if RoundComplete(c, s1) then FinishRound(c, s1) else s1
  }

  function ServePull(c: Config, s: State, sender: int, keys: seq<int>): State
    requires Inv(c, s) && Servable(c, s, Pull(sender, keys))
  {
    if sender !in c.idToIndex then
      s
    else if |s.versionBuffer[c.idToIndex[sender]]| >= c.bound then
      s.(pullRequests := s.pullRequests + [PullInfo(sender, keys)])
    else
      s.(replies := s.replies + [Reply(sender, keys, SlotValues(c, s.parameters, keys))])
  }

  function Step(c: Config, s: State, e: Event): State
    requires Inv(c, s) && Servable(c, s, e)
  {
    match e
    case Push(sender, update) => ServePush(c, s, sender, update)
    case Pull(sender, keys) => ServePull(c, s, sender, keys)
  }

  // ---- Preservation ----

  lemma {:induction false} CountAfterPop(buffers: seq<seq<KeyValueList>>, m: nat, k: nat)
    requires m <= |buffers| && forall i :: 0 <= i < |buffers| ==> buffers[i] != []
    ensures CountAbove(Popped(buffers), m, k) == CountAbove(buffers, m, k + 1)
  {
    if m > 0 {
      CountAfterPop(buffers, m - 1, k);
    }
  }

  lemma {:induction false} NoneAbove(buffers: seq<seq<KeyValueList>>, m: nat, k: nat)
    requires m <= |buffers| && forall i :: 0 <= i < m ==> |buffers[i]| <= k
    ensures CountAbove(buffers, m, k) == 0
  {
    if m > 0 {
      NoneAbove(buffers, m - 1, k);
    }
  }

  /** The counting invariant survives the round step: shifting the counts matches popping the
      buffers, and no second complete round is waiting because the last agent to push, agent i,
      had nothing buffered before. */
  lemma FinishRoundKeepsInv(c: Config, s: State, i: nat)
    requires ValidConfig(c) && Shaped(c, s) && Counted(c, s) && OnlyFullBlocked(c, s)
    requires forall j :: 0 <= j < c.agentNum ==> s.versionBuffer[j] != []
    requires i < c.agentNum && |s.versionBuffer[i]| == 1
    ensures Inv(c, FinishRound(c, s))
  {
    var s' := FinishRound(c, s);
    var buffers := s.versionBuffer;
    forall k | 0 <= k < c.bound
      ensures s'.finishCount[k] == CountAbove(s'.versionBuffer, c.agentNum, k)
    {
      CountAfterPop(buffers, c.agentNum, k);
      if k == c.bound - 1 {
        NoneAbove(buffers, c.agentNum, c.bound);
      }
    }
    AllAbove(s'.versionBuffer, c.agentNum, 0);
    assert |s'.versionBuffer[i]| == 0;
  }

  lemma PushKeepsInv(c: Config, s: State, sender: int, update: KeyValueList)
    requires Inv(c, s) && Servable(c, s, Push(sender, update))
    ensures Inv(c, ServePush(c, s, sender, update))
  {
    if sender in c.idToIndex {
      var i := c.idToIndex[sender];
      BufferedKeepsCounts(c, s, i, update);
      var s1 := Buffered(c, s, i, update);
      AllAbove(s.versionBuffer, c.agentNum, 0);
      if RoundComplete(c, s1) {
        assert forall j :: 0 <= j < c.agentNum && j != i ==> s1.versionBuffer[j] == s.versionBuffer[j];
        FinishRoundKeepsInv(c, s1, i);
      }
    }
  }

  lemma StrangersChangeNothing(c: Config, s: State, sender: int, update: KeyValueList)
    requires Inv(c, s) && Servable(c, s, Push(sender, update))
    ensures sender !in c.idToIndex ==> ServePush(c, s, sender, update) == s
  {
  }

  /** A push by a known agent in two halves. */
  lemma PushSteps(c: Config, s: State, sender: int, update: KeyValueList)
    requires Inv(c, s) && Servable(c, s, Push(sender, update)) && sender in c.idToIndex
    ensures var s1 := Buffered(c, s, c.idToIndex[sender], update);
            && Shaped(c, s1) && OnlyFullBlocked(c, s1)
            && (s1.finishCount[0] == c.agentNum <==> forall i :: 0 <= i < c.agentNum ==> s1.versionBuffer[i] != [])
            && ServePush(c, s, sender, update) == (if s1.finishCount[0] == c.agentNum then FinishRound(c, s1) else s1)
  {
    BufferedKeepsCounts(c, s, c.idToIndex[sender], update);
    assert RoundComplete(c, Buffered(c, s, c.idToIndex[sender], update))
           <==> Buffered(c, s, c.idToIndex[sender], update).finishCount[0] == c.agentNum;
  }

  lemma StepKeepsInv(c: Config, s: State, e: Event)
    requires Inv(c, s) && Servable(c, s, e)
    ensures Inv(c, Step(c, s, e))
  {
    if e.Push? {
      PushKeepsInv(c, s, e.sender, e.update);
    }
  }

  lemma InitInv(c: Config)
    requires ValidConfig(c)
    ensures Inv(c, Init(c))
  {
    forall k: nat
      ensures CountAbove(EmptyBuffers(c.agentNum), c.agentNum, k) == 0
    {
      NoneAbove(EmptyBuffers(c.agentNum), c.agentNum, k);
    }
  }

  // ---- Dropping and adding agents ----

  lemma {:induction false} CountAfterClear(buffers: seq<seq<KeyValueList>>, i: nat, m: nat, k: nat)
    requires i < |buffers| && m <= |buffers|
    ensures CountAbove(buffers[i := []], m, k)
            == CountAbove(buffers, m, k) - if i < m && k < |buffers[i]| then 1 else 0
  {
    if m > 0 {
      CountAfterClear(buffers, i, m - 1, k);
    }
  }

  lemma {:induction false} CountOfPrefix(buffers: seq<seq<KeyValueList>>, more: seq<seq<KeyValueList>>, m: nat, k: nat)
    requires m <= |buffers|
    ensures CountAbove(buffers + more, m, k) == CountAbove(buffers, m, k)
  {
    if m > 0 {
      CountOfPrefix(buffers, more, m - 1, k);
    }
  }

  /** The counts are exact, whatever the number of buffers. */
  predicate CountsExact(finishCount: seq<int>, buffers: seq<seq<KeyValueList>>) {
    && (forall i :: 0 <= i < |buffers| ==> |buffers[i]| <= |finishCount|)
    && (forall k :: 0 <= k < |finishCount| ==> finishCount[k] == CountAbove(buffers, |buffers|, k))
  }

  /** The first n counts, each one less. */
  function Decremented(finishCount: seq<int>, n: nat): (r: seq<int>)
    requires n <= |finishCount|
    ensures |r| == |finishCount|
    ensures forall k :: 0 <= k < |finishCount| ==> r[k] == finishCount[k] - if k < n then 1 else 0
  {
    if n == 0 then finishCount else Decremented(finishCount, n - 1)[n - 1 := finishCount[n - 1] - 1]
  }

  lemma ClearedCountsExact(finishCount: seq<int>, buffers: seq<seq<KeyValueList>>, i: nat)
    requires CountsExact(finishCount, buffers) && i < |buffers|
    ensures CountsExact(Decremented(finishCount, |buffers[i]|), buffers[i := []])
  {
    forall k | 0 <= k < |finishCount|
      ensures Decremented(finishCount, |buffers[i]|)[k] == CountAbove(buffers[i := []], |buffers|, k)
    {
      CountAfterClear(buffers, i, |buffers|, k);
    }
  }

  lemma AddedCountsExact(finishCount: seq<int>, buffers: seq<seq<KeyValueList>>)
    requires CountsExact(finishCount, buffers)
    ensures CountsExact(finishCount, buffers + [[]])
  {
    forall k | 0 <= k < |finishCount|
      ensures finishCount[k] == CountAbove(buffers + [[]], |buffers| + 1, k)
    {
      CountOfPrefix(buffers, [[]], |buffers|, k);
    }
  }

  /** Different agents have different buffers. */
  predicate Injective(idToIndex: map<int, nat>, buffers: nat) {
    && (forall id :: id in idToIndex ==> idToIndex[id] < buffers)
    && (forall id, id' :: id in idToIndex && id' in idToIndex && id != id' ==> idToIndex[id] != idToIndex[id'])
  }
}
