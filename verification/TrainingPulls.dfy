/** What a pull brings during a training: the servers' runs on one side, the agent's loop on the other. */
module TrainingPulls {
  import opened Messages
  import opened Partitioning
  import opened PullSequences
  import opened ServerRuns
  import opened ShardedTraining
  import S = ServerState

  /** The same reply in terms of what the server accepted. */
  lemma ReplyFromPushes(c: S.Config, events: seq<S.Event>, n: nat, x: nat)
    requires Reaches(c, events) && n < |After(c, events).h.answers| && n < |After(c, events).s.replies|
    requires x < |After(c, events).s.replies[n].keys|
    ensures var r := After(c, events);
            var answer, reply := r.h.answers[n], r.s.replies[n];
            && |reply.values| == |reply.keys| && |r.h.pushes| == c.agentNum >= 1
            && (forall a :: 0 <= a < |r.h.pushes| ==> answer.version <= |r.h.pushes[a]|)
            && reply.values[x]
               == ValueAfter(r.h.pushes, answer.version, c.startKey + LocalIndex(c.startKey, c.keyRange, reply.keys[x]))
            && answer.version <= answer.pushed <= answer.version + c.bound - 1
  {
    RepliesAreFreshEnough(c, events, n);
  }

  /** Every reply of a server gives, for each key that it owns, the sum of the round averages of the
      agents' gradients up to one version; that version misses at most bound - 1 of the updates that
      the agent had pushed to this server. */
  lemma ReplyHoldsValue(cuts: seq<int>, range: int, c: S.Config, gradients: seq<seq<KeyValueList>>,
                        events: seq<S.Event>, n: nat, x: nat)
    requires ValidCuts(cuts, range) && cuts[0] != cuts[|cuts| - 1]
    requires Reaches(c, events) && n < |After(c, events).h.answers| && n < |After(c, events).s.replies|
    requires x < |After(c, events).s.replies[n].keys| && 0 <= After(c, events).s.replies[n].keys[x] < range
    requires var s := GetServer(cuts, range, After(c, events).s.replies[n].keys[x]);
             && 0 <= s < |cuts|
             && c == ShardConfig(cuts, range, s, c.bound, c.idToIndex, c.agentNum)
             && ShardRun(cuts, range, s, c, gradients, events)
    ensures var answer, reply := After(c, events).h.answers[n], After(c, events).s.replies[n];
            && |reply.values| == |reply.keys|
            && |gradients| >= 1 && (forall a :: 0 <= a < |gradients| ==> answer.version <= |gradients[a]|)
            && reply.values[x] == ValueAfter(gradients, answer.version, reply.keys[x])
            && answer.version <= answer.pushed <= answer.version + c.bound - 1
  {
    hide Reaches, Gradients, SendsTo, Gradient, GetServer, ValidCuts, After, InStepRun;
    var r := After(c, events);
    var key := r.s.replies[n].keys[x];
    var s := GetServer(cuts, range, key);
    ReplyFromPushes(c, events, n, x);
    forall a | 0 <= a < |gradients|
      ensures SendsTo(cuts, range, s, gradients[a], r.h.pushes[a])
    {
      AcceptedIsPushed(c, events, a);
    }
    ShardValue(cuts, range, gradients, r.h.pushes, r.h.answers[n].version, key);
  }

  /** The run of every server of a partition in a training. */
  predicate AllShards(cuts: seq<int>, range: int, whole: S.Config, gradients: seq<seq<KeyValueList>>, runs: seq<seq<S.Event>>)
    requires ValidCuts(cuts, range)
  {
    |runs| == |cuts| && forall s :: 0 <= s < |cuts| ==>
      ShardRun(cuts, range, s, ShardConfig(cuts, range, s, whole.bound, whole.idToIndex, whole.agentNum), gradients, runs[s])
  }

  /** How far server s has come. */
  function RunAt(cuts: seq<int>, range: int, whole: S.Config, gradients: seq<seq<KeyValueList>>,
                    runs: seq<seq<S.Event>>, s: int): Run
    requires ValidCuts(cuts, range) && AllShards(cuts, range, whole, gradients, runs) && 0 <= s < |cuts|
  {
    var c := ShardConfig(cuts, range, s, whole.bound, whole.idToIndex, whole.agentNum);
    assert ShardRun(cuts, range, s, c, gradients, runs[s]);
    After(c, runs[s])
  }

  /** The value that agent `id` is sent for a key is in its owner's reply number replyNo[owner], which goes to
      this agent. */
  predicate Served(cuts: seq<int>, range: int, whole: S.Config, gradients: seq<seq<KeyValueList>>,
                   runs: seq<seq<S.Event>>, id: int, replyNo: seq<nat>, key: int, value: real)
    requires ValidCuts(cuts, range) && AllShards(cuts, range, whole, gradients, runs) && |replyNo| == |cuts|
  {
    var s := GetServer(cuts, range, key);
    && 0 <= s < |cuts|
    && var r := RunAt(cuts, range, whole, gradients, runs, s);
       && replyNo[s] < |r.s.replies| && replyNo[s] < |r.h.answers|
       && var reply := r.s.replies[replyNo[s]];
          && reply.id == id
          && exists x :: 0 <= x < |reply.keys| && x < |reply.values| && reply.keys[x] == key && reply.values[x] == value
  }

  /** Answer n of a run goes to agent `id` after the first m messages, and its version then misses at most
      bound - 1 of the updates that this agent has pushed to this server. */
  predicate AnsweredInTime(c: S.Config, events: seq<S.Event>, m: nat, n: nat, id: int)
    requires Reaches(c, events) && n < |After(c, events).h.answers|
  {
    InitGood(c);
    var a := After(c, events).h.answers[n];
    && AnsweredBy(c, InitRun(c), events, m, n, a)
    && var last := RunOf(c, InitRun(c), events[..m]);
       && last.h.pulls[a.pull].id == id && id in c.idToIndex
       && a.version <= |last.h.pushes[c.idToIndex[id]]| <= a.version + c.bound - 1
  }

  lemma RepliesAreInTime(c: S.Config, events: seq<S.Event>, n: nat) returns (m: nat)
    requires Reaches(c, events) && n < |After(c, events).h.answers| && n < |After(c, events).s.replies|
    ensures m <= |events| && AnsweredInTime(c, events, m, n, After(c, events).s.replies[n].id)
  {
    hide Good, RunOf, ValidRun;
    InitGood(c);
    m := EachAnswerIsGiven(c, InitRun(c), events, n);
    RepliesAreFreshEnough(c, events, n);
    RestOnlyAdds(c, InitRun(c), events, m);
  }

  /** What a run has seen after its first messages stays what it was. */
  lemma {:induction false} RestOnlyAdds(c: S.Config, r: Run, events: seq<S.Event>, m: nat)
    requires Good(c, r) && ValidRun(c, r, events) && m <= |events|
    ensures ValidRun(c, r, events[..m])
    ensures RunOf(c, r, events[..m]).h.pulls <= RunOf(c, r, events).h.pulls
    decreases m
  {
    hide Good, Ready, S.Servable, Observe;
    if m == 0 {
      NoMessages(c, r);
      assert events[..0] == [];
      RunOnlyAdds(c, r, events);
    } else {
      FirstOfRun(c, r, events);
      RestOnlyAdds(c, Observe(c, r, events[0]), events[1..], m - 1);
      OneMoreMessage(c, r, events, m - 1);
    }
  }

  /** The value is the sum of the averages of the first rounds up to one version of the owner, which missed
      at most bound - 1 of the updates that agent `id` had pushed there when it was answered. */
  predicate UpToDate(cuts: seq<int>, range: int, whole: S.Config, gradients: seq<seq<KeyValueList>>,
                     runs: seq<seq<S.Event>>, id: int, replyNo: seq<nat>, key: int, value: real)
    requires ValidCuts(cuts, range) && AllShards(cuts, range, whole, gradients, runs) && |replyNo| == |cuts|
  {
    var s := GetServer(cuts, range, key);
    && 0 <= s < |cuts|
    && var c := ShardConfig(cuts, range, s, whole.bound, whole.idToIndex, whole.agentNum);
       && Reaches(c, runs[s]) && replyNo[s] < |After(c, runs[s]).h.answers|
       && (exists m :: 0 <= m <= |runs[s]| && AnsweredInTime(c, runs[s], m, replyNo[s], id))
       && var version := After(c, runs[s]).h.answers[replyNo[s]].version;
          && |gradients| >= 1 && (forall a :: 0 <= a < |gradients| ==> version <= |gradients[a]|)
          && value == ValueAfter(gradients, version, key)
  }

  lemma ServedValue(cuts: seq<int>, range: int, whole: S.Config, gradients: seq<seq<KeyValueList>>,
                    runs: seq<seq<S.Event>>, id: int, replyNo: seq<nat>, key: int, value: real)
    requires ValidCuts(cuts, range) && cuts[0] != cuts[|cuts| - 1] && 0 <= key < range
    requires AllShards(cuts, range, whole, gradients, runs) && |replyNo| == |cuts|
    requires Served(cuts, range, whole, gradients, runs, id, replyNo, key, value)
    ensures UpToDate(cuts, range, whole, gradients, runs, id, replyNo, key, value)
  {
    hide GetServer, ValidCuts, ShardRun, AnsweredInTime, After, Reaches, ValueAfter;
    var s := GetServer(cuts, range, key);
    var c := ShardConfig(cuts, range, s, whole.bound, whole.idToIndex, whole.agentNum);
    var reply := RunAt(cuts, range, whole, gradients, runs, s).s.replies[replyNo[s]];
    var x :| 0 <= x < |reply.keys| && x < |reply.values| && reply.keys[x] == key && reply.values[x] == value;
    ReachesInShard(cuts, range, s, c, gradients, runs[s]);
    ReplyHoldsValue(cuts, range, c, gradients, runs[s], replyNo[s], x);
    var m := RepliesAreInTime(c, runs[s], replyNo[s]);
  }

  lemma ReachesInShard(cuts: seq<int>, range: int, s: int, c: S.Config, gradients: seq<seq<KeyValueList>>, events: seq<S.Event>)
    requires ShardRun(cuts, range, s, c, gradients, events)
    ensures Reaches(c, events)
  {
  }

  /** From end to end: whatever the interleavings at the servers and the order of arrival at the agent,
      a pull that meets the condition of AlwaysCompleteIff returns every requested key once, with the
      value that the gradients give it at one version per server, at most bound - 1 behind. */
  lemma PullReturnsTrainedValues(u: Setup, before: seq<Pull>, p: Pull, values: seq<int -> real>, whole: S.Config,
                                 gradients: seq<seq<KeyValueList>>, runs: seq<seq<S.Event>>, replyNo: seq<nat>)
    requires PullSequences.ValidSetup(u) && u.cuts[0] != u.cuts[|u.cuts| - 1]
    requires AllShards(u.cuts, u.range, whole, gradients, runs) && |replyNo| == |u.cuts|
    requires PullSequences.History(u, before, values) && NextPull(u, before, p, values) && |values| == |before| + 1
    requires !Spans(u, p.keys) && (AsksLast(u, p.keys) ==> forall k :: 0 <= k < |before| ==> !Spans(u, before[k].keys))
    requires forall i :: 0 <= i < |p.keys| ==>
               Served(u.cuts, u.range, whole, gradients, runs, u.localId, replyNo, p.keys[i], values[|before|](p.keys[i]))
    ensures Complete(u, p, values[|before|])
    ensures forall i :: 0 <= i < |p.keys| ==>
              UpToDate(u.cuts, u.range, whole, gradients, runs, u.localId, replyNo, p.keys[i], values[|before|](p.keys[i]))
  {
    hide AllShards, Complete, PullSequences.History, Spans, Served, UpToDate;
    CompleteUnlessSpanned(u, before, p, values);
    forall i | 0 <= i < |p.keys|
      ensures UpToDate(u.cuts, u.range, whole, gradients, runs, u.localId, replyNo, p.keys[i], values[|before|](p.keys[i]))
    {
      ServedValue(u.cuts, u.range, whole, gradients, runs, u.localId, replyNo, p.keys[i], values[|before|](p.keys[i]));
    }
  }
}
