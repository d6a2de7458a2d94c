/** All servers together: what they hold after some rounds is what one server without sharding
    would hold. */
module ShardedTraining {
  import opened Averaging
  import opened Blocks
  import opened KeySorting
  import opened Messages
  import opened Partitioning
  import opened Pushing
  import opened Search
  import opened Sequences
  import opened ServerRuns
  import S = ServerState

  // ---- What one key gets out of an update ----

  /** The owner of a key gets all that an update says about it. */
  lemma {:induction false} OwnerGetsTotal(cuts: seq<int>, range: int, pairs: KeyValueList, key: int, server: int)
    requires |cuts| >= 1 && GetServer(cuts, range, key) == server
    ensures Total(Owned(cuts, range, pairs, server), key) == Total(pairs, key)
  {
    if pairs != [] {
      var last := |pairs| - 1;
      OwnerGetsTotal(cuts, range, pairs[..last], key, server);
      TotalOfLast(pairs, key);
      var mine := Owned(cuts, range, pairs[..last], server);
      if GetServer(cuts, range, pairs[last].0) == server {
        TotalOfLast(mine + [pairs[last]], key);
        assert (mine + [pairs[last]])[..|mine|] == mine;
      } else {
        assert mine + [] == mine;
      }
    }
  }

  lemma {:induction false} NothingForKey(update: KeyValueList, n: nat, key: int)
    requires n <= |update| && forall i :: 0 <= i < n ==> update[i].0 != key
    ensures Contribution(update, n, key) == 0.0
  {
    if n > 0 {
      NothingForKey(update, n - 1, key);
    }
  }

  /** What server s receives of a gradient for a key that it owns is what the gradient has. */
  lemma SentTotal(cuts: seq<int>, range: int, gradient: KeyValueList, key: int, s: int)
    requires Pushable(cuts, range, gradient) && RepeatsTrail(gradient) && GetServer(cuts, range, key) == s
    ensures Total(SentTo(cuts, range, gradient, s), key) == Total(gradient, key)
  {
    SortsIff(gradient);
    SentIsOwned(cuts, range, gradient, s);
    OwnerGetsTotal(cuts, range, SortedPairs(gradient), key, s);
    TotalOfReordering(SortedPairs(gradient), gradient, key);
  }

  // ---- Gradients that reach every server with exactly one message ----

  /** Keys from the first cut on, at least one for every server, and none that the sort loses. */
  predicate Gradient(cuts: seq<int>, range: int, gradient: KeyValueList) {
    && Pushable(cuts, range, gradient) && RepeatsTrail(gradient)
    && (forall i :: 0 <= i < |gradient| ==> cuts[0] <= gradient[i].0)
    && forall s :: 0 <= s < |cuts| ==> HasKeyFor(cuts, range, gradient, s)
  }

  predicate HasKeyFor(cuts: seq<int>, range: int, gradient: KeyValueList, s: int)
    requires |cuts| >= 1
  {
    exists i :: 0 <= i < |gradient| && GetServer(cuts, range, gradient[i].0) == s
  }

  lemma {:induction false} NotDelivered<T>(blocks: seq<KeyBlock>, items: seq<T>, s: int)
    requires forall i :: 0 <= i < |blocks| ==> blocks[i].from <= blocks[i].to <= |items|
    requires forall i :: 0 <= i < |blocks| ==> blocks[i].server != s
    ensures Delivered(blocks, items, s) == []
  {
    if blocks != [] {
      NotDelivered(blocks[1..], items, s);
    }
  }

  lemma {:induction false} DeliveredOnce<T>(blocks: seq<KeyBlock>, items: seq<T>, s: int, k: nat)
    requires forall i :: 0 <= i < |blocks| ==> blocks[i].from <= blocks[i].to <= |items|
    requires k < |blocks| && forall i :: 0 <= i < |blocks| ==> (blocks[i].server == s <==> i == k)
    ensures Delivered(blocks, items, s) == items[blocks[k].from..blocks[k].to]
  {
    if k == 0 {
      NotDelivered(blocks[1..], items, s);
    } else {
      DeliveredOnce(blocks[1..], items, s, k - 1);
    }
  }

  lemma {:induction false} OwnedSome(cuts: seq<int>, range: int, pairs: KeyValueList, s: int, i: nat)
    requires |cuts| >= 1 && i < |pairs| && GetServer(cuts, range, pairs[i].0) == s
    ensures Owned(cuts, range, pairs, s) != []
  {
    if i < |pairs| - 1 {
      OwnedSome(cuts, range, pairs[..|pairs| - 1], s, i);
    }
  }

  lemma SortedKeysFrom(cuts: seq<int>, range: int, gradient: KeyValueList)
    requires Gradient(cuts, range, gradient)
    ensures forall i :: 0 <= i < |gradient| ==> cuts[0] <= SortedPairs(gradient)[i].0 < range
    ensures gradient != []
  {
    SortsIff(gradient);
    var sorted := SortedPairs(gradient);
    forall i | 0 <= i < |sorted|
      ensures cuts[0] <= sorted[i].0 < range
    {
      assert sorted[i] in multiset(gradient);
    }
    assert HasKeyFor(cuts, range, gradient, 0);
  }

  /** Such a gradient makes exactly one block, that is one push message, for every server. */
  lemma OneBlockPerServer(cuts: seq<int>, range: int, gradient: KeyValueList, s: int) returns (k: nat)
    requires Gradient(cuts, range, gradient) && 0 <= s < |cuts|
    ensures var blocks := PushBlocks(cuts, range, gradient);
            && k < |blocks| && (forall i :: 0 <= i < |blocks| ==> (blocks[i].server == s <==> i == k))
            && SentTo(cuts, range, gradient, s) == SortedPairs(gradient)[blocks[k].from..blocks[k].to]
  {
    SortsIff(gradient);
    SortedKeysFrom(cuts, range, gradient);
    var sorted := SortedPairs(gradient);
    var blocks := PushBlocks(cuts, range, gradient);
    ServersIncrease(cuts, range, KeysOf(sorted), 0);
    if forall i :: 0 <= i < |blocks| ==> blocks[i].server != s {
      NotDelivered(blocks, sorted, s);
      SomethingSent(cuts, range, gradient, s);
      assert false;
    }
    k :| 0 <= k < |blocks| && blocks[k].server == s;
    DeliveredOnce(blocks, sorted, s, k);
  }

  lemma SomethingSent(cuts: seq<int>, range: int, gradient: KeyValueList, s: int)
    requires Gradient(cuts, range, gradient) && 0 <= s < |cuts|
    ensures SentTo(cuts, range, gradient, s) != []
  {
    SortsIff(gradient);
    SentIsOwned(cuts, range, gradient, s);
    assert HasKeyFor(cuts, range, gradient, s);
    var i :| 0 <= i < |gradient| && GetServer(cuts, range, gradient[i].0) == s;
    assert gradient[i] in multiset(SortedPairs(gradient));
    var j :| 0 <= j < |gradient| && SortedPairs(gradient)[j] == gradient[i];
    OwnedSome(cuts, range, SortedPairs(gradient), s, j);
  }

  // ---- The servers of a partition, and one server without sharding ----

  function ShardConfig(cuts: seq<int>, range: int, s: int, bound: nat, idToIndex: map<int, nat>, agents: nat): S.Config
    requires ValidCuts(cuts, range) && 0 <= s < |cuts|
  {
    S.Config(bound, agents, idToIndex, cuts[s], SegmentLength(cuts, range, s), range)
  }

  function WholeConfig(range: nat, bound: nat, idToIndex: map<int, nat>, agents: nat): S.Config {
    S.Config(bound, agents, idToIndex, 0, range, range)
  }

  predicate Gradients(cuts: seq<int>, range: int, gradients: seq<seq<KeyValueList>>) {
    forall a, r :: 0 <= a < |gradients| && 0 <= r < |gradients[a]| ==> Gradient(cuts, range, gradients[a][r])
  }

  /** What a server is sent in training is always at plain offsets of that server. */
  lemma SentIsPlain(cuts: seq<int>, range: int, gradient: KeyValueList, s: int, c: S.Config)
    requires Gradient(cuts, range, gradient) && 0 <= s < |cuts|
    requires c.startKey == cuts[s] && c.length == SegmentLength(cuts, range, s)
    requires cuts[0] != cuts[|cuts| - 1]
    ensures S.PlainUpdate(c, SentTo(cuts, range, gradient, s))
  {
    SortsIff(gradient);
    SentIsOwned(cuts, range, gradient, s);
    SortedKeysFrom(cuts, range, gradient);
    OwnedIsPlain(cuts, range, SortedPairs(gradient), s, c);
  }

  lemma {:induction false} OwnedIsPlain(cuts: seq<int>, range: int, pairs: KeyValueList, s: int, c: S.Config)
    requires ValidCuts(cuts, range) && 0 <= s < |cuts| && cuts[0] != cuts[|cuts| - 1]
    requires forall i :: 0 <= i < |pairs| ==> cuts[0] <= pairs[i].0 < range
    requires c.startKey == cuts[s] && c.length == SegmentLength(cuts, range, s)
    ensures S.PlainUpdate(c, Owned(cuts, range, pairs, s))
  {
    if pairs != [] {
      var last := |pairs| - 1;
      OwnedIsPlain(cuts, range, pairs[..last], s, c);
      var key := pairs[last].0;
      KeyHasSlot(cuts, range, key);
      OwnerHasLastCut(cuts, range, key);
    }
  }

  /** The run of server s in a training: agents stay in step, and what agent a pushes is
      what Push sends to server s of the first of its gradients, in order. */
  predicate ShardRun(cuts: seq<int>, range: int, s: int, c: S.Config, gradients: seq<seq<KeyValueList>>, events: seq<S.Event>) {
    && ValidCuts(cuts, range) && Gradients(cuts, range, gradients)
    && InStepRun(c, events) && |gradients| == c.agentNum
    && forall a :: 0 <= a < |gradients| ==> SendsTo(cuts, range, s, gradients[a], PushesBy(c, events, a))
  }

  predicate InStepRun(c: S.Config, events: seq<S.Event>) {
    Reaches(c, events) && StayInStep(c, NoPushes(c.agentNum), events)
  }

  predicate SendsTo(cuts: seq<int>, range: int, s: int, gradients: seq<KeyValueList>, pushes: seq<KeyValueList>) {
    && |pushes| <= |gradients|
    && forall r :: 0 <= r < |pushes| ==> Pushable(cuts, range, gradients[r]) && pushes[r] == SentTo(cuts, range, gradients[r], s)
  }

  /** The run of the server without sharding: it gets the gradients as they are. */
  predicate WholeRun(c: S.Config, gradients: seq<seq<KeyValueList>>, events: seq<S.Event>) {
    && InStepRun(c, events) && |gradients| == c.agentNum
    && forall a :: 0 <= a < |gradients| ==> PushesBy(c, events, a) <= gradients[a]
  }

  /** A server that never drops an update has accepted exactly what was pushed. */
  lemma AcceptedIsPushed(c: S.Config, events: seq<S.Event>, a: nat)
    requires InStepRun(c, events) && a < c.agentNum
    ensures |After(c, events).h.pushes| == c.agentNum
    ensures After(c, events).h.pushes[a] == PushesBy(c, events, a)
  {
    AllAcceptedIff(c, events);
  }

  /** Two histories in which every update says the same about a key give it the same value. */
  lemma {:induction false} SameTotalsSameValue(p: seq<seq<KeyValueList>>, q: seq<seq<KeyValueList>>, v: nat, k: int, l: int)
    requires |p| == |q| >= 1
    requires forall a :: 0 <= a < |p| ==> v <= |p[a]| && v <= |q[a]|
    requires forall a, r :: 0 <= a < |p| && 0 <= r < v ==> Total(p[a][r], k) == Total(q[a][r], l)
    ensures ValueAfter(p, v, k) == ValueAfter(q, v, l)
  {
    if v > 0 {
      SameTotalsSameValue(p, q, v - 1, k, l);
      SameTotalsSameSum(Row(p, v - 1), Row(q, v - 1), |p|, k, l);
    }
  }

  lemma {:induction false} SameTotalsSameSum(p: seq<KeyValueList>, q: seq<KeyValueList>, m: nat, k: int, l: int)
    requires m <= |p| == |q| && forall a :: 0 <= a < |p| ==> Total(p[a], k) == Total(q[a], l)
    ensures RoundSum(p, m, k) == RoundSum(q, m, l)
  {
    if m > 0 {
      SameTotalsSameSum(p, q, m - 1, k, l);
    }
  }

  /** For a key and the plain offset at which its owner looks it up, the owner is sent what the
      gradient has: all of it, or for a key that wrapped around nothing, as the gradient has
      nothing. */
  lemma SentTotalAtSlot(cuts: seq<int>, range: int, gradient: KeyValueList, key: int)
    requires Gradient(cuts, range, gradient) && 0 <= key < range && cuts[0] != cuts[|cuts| - 1]
    ensures var s := GetServer(cuts, range, key);
            && 0 <= s < |cuts|
            && Total(SentTo(cuts, range, gradient, s), cuts[s] + LocalIndex(cuts[s], range, key)) == Total(gradient, key)
  {
    KeyHasSlot(cuts, range, key);
    OwnerHasLastCut(cuts, range, key);
    var s := GetServer(cuts, range, key);
    if cuts[s] <= key {
      SentTotal(cuts, range, gradient, key, s);
    } else {
      NothingForKey(gradient, |gradient|, key);
      NothingSentAbove(cuts, range, gradient, s, key + range);
    }
  }

  lemma NothingSentAbove(cuts: seq<int>, range: int, gradient: KeyValueList, s: int, key: int)
    requires Gradient(cuts, range, gradient) && 0 <= s < |cuts| && key >= range
    ensures Total(SentTo(cuts, range, gradient, s), key) == 0.0
  {
    SortsIff(gradient);
    SortedKeysFrom(cuts, range, gradient);
    var k := OneBlockPerServer(cuts, range, gradient, s);
    var sent := SentTo(cuts, range, gradient, s);
    NothingForKey(sent, |sent|, key);
  }

  /** After v rounds the owner of a key holds, at the slot of that key, the sum over the rounds of
      the average of the agents' gradients, whatever the interleaving. */
  lemma OwnerHoldsValue(cuts: seq<int>, range: int, c: S.Config, gradients: seq<seq<KeyValueList>>,
                        events: seq<S.Event>, key: int)
    requires ValidCuts(cuts, range) && cuts[0] != cuts[|cuts| - 1] && 0 <= key < range
    requires 0 <= GetServer(cuts, range, key) < |cuts|
    requires c == ShardConfig(cuts, range, GetServer(cuts, range, key), c.bound, c.idToIndex, c.agentNum)
    requires ShardRun(cuts, range, GetServer(cuts, range, key), c, gradients, events)
    ensures var state := After(c, events).s;
            var slot := LocalIndex(c.startKey, range, key);
            && 0 <= slot < |state.parameters|
            && (forall a :: 0 <= a < |gradients| ==> state.bottomVersion <= |gradients[a]|)
            && |gradients| >= 1
            && state.parameters[slot] == ValueAfter(gradients, state.bottomVersion, key)
  {
    hide Reaches, InStepRun, Gradients, SendsTo;
    var s := GetServer(cuts, range, key);
    KeyHasSlot(cuts, range, key);
    ShardStateFromPushes(c, events);
    var v, pushes := After(c, events).s.bottomVersion, After(c, events).h.pushes;
    forall a | 0 <= a < |gradients|
      ensures SendsTo(cuts, range, s, gradients[a], pushes[a])
    {
      AcceptedIsPushed(c, events, a);
    }
    ShardValue(cuts, range, gradients, pushes, v, key);
  }

  lemma ShardStateFromPushes(c: S.Config, events: seq<S.Event>)
    requires InStepRun(c, events)
    ensures Reaches(c, events)
    ensures var s, pushes := After(c, events).s, After(c, events).h.pushes;
            && |pushes| == c.agentNum >= 1 && |s.parameters| == c.length
            && (forall a :: 0 <= a < |pushes| ==> s.bottomVersion <= |pushes[a]|)
            && (forall x :: 0 <= x < c.length ==> s.parameters[x] == ValueAfter(pushes, s.bottomVersion, c.startKey + x))
  {
    StateIsFunctionOfPushes(c, events);
  }

  lemma ShardValue(cuts: seq<int>, range: int, gradients: seq<seq<KeyValueList>>, pushes: seq<seq<KeyValueList>>, v: nat, key: int)
    requires ValidCuts(cuts, range) && cuts[0] != cuts[|cuts| - 1] && 0 <= key < range
    requires Gradients(cuts, range, gradients) && |pushes| == |gradients| >= 1
    requires forall a :: 0 <= a < |gradients| ==> SendsTo(cuts, range, GetServer(cuts, range, key), gradients[a], pushes[a])
    requires forall a :: 0 <= a < |pushes| ==> v <= |pushes[a]|
    requires 0 <= GetServer(cuts, range, key) < |cuts|
    ensures forall a :: 0 <= a < |gradients| ==> v <= |gradients[a]|
    ensures var start := cuts[GetServer(cuts, range, key)];
            ValueAfter(pushes, v, start + LocalIndex(start, range, key)) == ValueAfter(gradients, v, key)
  {
    hide Gradient, GetServer, ValidCuts, Pushable;
    var start := cuts[GetServer(cuts, range, key)];
    forall a, r | 0 <= a < |pushes| && 0 <= r < v
      ensures Total(pushes[a][r], start + LocalIndex(start, range, key)) == Total(gradients[a][r], key)
    {
      SentTotalAtSlot(cuts, range, gradients[a][r], key);
    }
    SameTotalsSameValue(pushes, gradients, v, start + LocalIndex(start, range, key), key);
  }

  /** The server without sharding holds the same sums. */
  lemma WholeHoldsValue(c: S.Config, gradients: seq<seq<KeyValueList>>, events: seq<S.Event>, key: int)
    requires WholeRun(c, gradients, events) && c.startKey == 0 && 0 <= key < c.length
    ensures var state := After(c, events).s;
            && |state.parameters| == c.length
            && (forall a :: 0 <= a < |gradients| ==> state.bottomVersion <= |gradients[a]|)
            && |gradients| >= 1
            && state.parameters[key] == ValueAfter(gradients, state.bottomVersion, key)
  {
    StateIsFunctionOfPushes(c, events);
    var v, pushes := After(c, events).s.bottomVersion, After(c, events).h.pushes;
    forall a | 0 <= a < |gradients|
      ensures pushes[a] <= gradients[a]
    {
      AcceptedIsPushed(c, events, a);
    }
    SameTotalsSameValue(pushes, gradients, v, key, key);
  }

  /** Server s has gone through v rounds of the training. */
  predicate ShardAfter(cuts: seq<int>, range: int, s: int, c: S.Config, gradients: seq<seq<KeyValueList>>, events: seq<S.Event>, v: nat) {
    ShardRun(cuts, range, s, c, gradients, events) && After(c, events).s.bottomVersion == v
  }

  predicate AllShardsAfter(cuts: seq<int>, range: int, whole: S.Config, gradients: seq<seq<KeyValueList>>,
                           runs: seq<seq<S.Event>>, v: nat)
    requires ValidCuts(cuts, range) && |runs| == |cuts|
  {
    forall s :: 0 <= s < |cuts| ==>
      ShardAfter(cuts, range, s, ShardConfig(cuts, range, s, whole.bound, whole.idToIndex, whole.agentNum), gradients, runs[s], v)
  }

  /** The parameters of all servers, put together by key through the ownership of the agents. */
  function Glued(cuts: seq<int>, range: int, whole: S.Config, gradients: seq<seq<KeyValueList>>,
                 runs: seq<seq<S.Event>>, v: nat, n: nat): (values: seq<real>)
    requires ValidCuts(cuts, range) && cuts[0] != cuts[|cuts| - 1] && |runs| == |cuts| && n <= range
    requires AllShardsAfter(cuts, range, whole, gradients, runs, v)
    ensures |values| == n
  {
    if n == 0 then
      []
    else
      var key := n - 1;
      KeyHasSlot(cuts, range, key);
      var s := GetServer(cuts, range, key);
      var c := ShardConfig(cuts, range, s, whole.bound, whole.idToIndex, whole.agentNum);
      assert ShardAfter(cuts, range, s, c, gradients, runs[s], v);
      OwnerHoldsValue(cuts, range, c, gradients, runs[s], key);
      Glued(cuts, range, whole, gradients, runs, v, n - 1)
      + [After(c, runs[s]).s.parameters[LocalIndex(cuts[s], range, key)]]
  }

  /** The value that Glued puts in for its last key. */
  lemma LastGluedValue(cuts: seq<int>, range: int, whole: S.Config, gradients: seq<seq<KeyValueList>>,
                       runs: seq<seq<S.Event>>, v: nat, n: nat)
    requires ValidCuts(cuts, range) && cuts[0] != cuts[|cuts| - 1] && |runs| == |cuts| && 1 <= n <= range
    requires AllShardsAfter(cuts, range, whole, gradients, runs, v)
    requires |gradients| >= 1 && forall a :: 0 <= a < |gradients| ==> v <= |gradients[a]|
    ensures |Glued(cuts, range, whole, gradients, runs, v, n)| == n
    ensures Glued(cuts, range, whole, gradients, runs, v, n)[n - 1] == ValueAfter(gradients, v, n - 1)
    ensures Glued(cuts, range, whole, gradients, runs, v, n)[..n - 1] == Glued(cuts, range, whole, gradients, runs, v, n - 1)
  {
    var key := n - 1;
    KeyHasSlot(cuts, range, key);
    hide ShardRun, ValueAfter, ValidCuts, GetServer, After, LocalIndex, Reaches, Gradients;
    var s := GetServer(cuts, range, key);
    var c := ShardConfig(cuts, range, s, whole.bound, whole.idToIndex, whole.agentNum);
    assert ShardAfter(cuts, range, s, c, gradients, runs[s], v);
    OwnerHoldsValue(cuts, range, c, gradients, runs[s], key);
  }

  lemma {:induction false} GluedHoldsValues(cuts: seq<int>, range: int, whole: S.Config, gradients: seq<seq<KeyValueList>>,
                                            runs: seq<seq<S.Event>>, v: nat, n: nat, key: int)
    requires ValidCuts(cuts, range) && cuts[0] != cuts[|cuts| - 1] && |runs| == |cuts| && 0 <= key < n <= range
    requires AllShardsAfter(cuts, range, whole, gradients, runs, v)
    requires |gradients| >= 1 && forall a :: 0 <= a < |gradients| ==> v <= |gradients[a]|
    ensures |Glued(cuts, range, whole, gradients, runs, v, n)| == n
    ensures Glued(cuts, range, whole, gradients, runs, v, n)[key] == ValueAfter(gradients, v, key)
  {
    hide AllShardsAfter, ValueAfter, ValidCuts, Glued;
    LastGluedValue(cuts, range, whole, gradients, runs, v, n);
    if key < n - 1 {
      GluedHoldsValues(cuts, range, whole, gradients, runs, v, n - 1, key);
      assert Glued(cuts, range, whole, gradients, runs, v, n)[..n - 1][key]
             == Glued(cuts, range, whole, gradients, runs, v, n)[key];
    }
  }

  /** Sharding refines a single server: when all servers and the server without sharding have gone
      through v rounds of the same training, each with its own interleaving, the parameters of
      the servers put together are exactly those of the single server. */
  lemma ShardingRefinesOneServer(cuts: seq<int>, range: nat, whole: S.Config, gradients: seq<seq<KeyValueList>>,
                                 runs: seq<seq<S.Event>>, events: seq<S.Event>, v: nat)
    requires ValidCuts(cuts, range) && cuts[0] != cuts[|cuts| - 1] && |runs| == |cuts|
    requires whole == WholeConfig(range, whole.bound, whole.idToIndex, whole.agentNum)
    requires AllShardsAfter(cuts, range, whole, gradients, runs, v)
    requires WholeRun(whole, gradients, events) && After(whole, events).s.bottomVersion == v
    ensures Glued(cuts, range, whole, gradients, runs, v, range) == After(whole, events).s.parameters
  {
    hide AllShardsAfter, Glued;
    WholeHoldsValue(whole, gradients, events, 0);
    forall key | 0 <= key < range
      ensures Glued(cuts, range, whole, gradients, runs, v, range)[key] == After(whole, events).s.parameters[key]
    {
      WholeHoldsValue(whole, gradients, events, key);
      GluedHoldsValues(cuts, range, whole, gradients, runs, v, range, key);
    }
  }
}
