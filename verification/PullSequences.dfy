/** One pull after the other, all reading the same receiver: when is a pull complete whatever the order
    in which the servers' answers arrive? */
module PullSequences {
  import opened Blocks
  import opened Gathering
  import opened Messages
  import opened Partitioning
  import opened Search
  import opened ServerMessages
  import S = ServerState

  /** An agent and the partition it works with. */
  datatype Setup = Setup(cuts: seq<int>, range: int, serverIds: seq<int>, localId: int)

  predicate ValidSetup(u: Setup) {
    ValidCuts(u.cuts, u.range) && |u.serverIds| == |u.cuts| && DistinctElements(u.serverIds)
  }

  predicate Pullable(u: Setup, keys: seq<int>) {
    Sorted(keys) && InRange(keys, u.range)
  }

  function LastServer(u: Setup): int
    requires ValidSetup(u)
  {
    u.serverIds[|u.serverIds| - 1]
  }

  /** A key that wrapped around. */
  predicate Low(u: Setup, key: int)
    requires ValidSetup(u)
  {
    key < u.cuts[0]
  }

  /** A key at or past the last cut. */
  predicate High(u: Setup, key: int)
    requires ValidSetup(u)
  {
    u.cuts[|u.cuts| - 1] <= key
  }

  /** The keys of a pull span the whole circle. */
  predicate Spans(u: Setup, keys: seq<int>)
    requires ValidSetup(u)
  {
    keys != [] && Low(u, keys[0]) && High(u, keys[|keys| - 1])
  }

  /** Some key of a pull belongs to the last server. */
  predicate AsksLast(u: Setup, keys: seq<int>)
    requires ValidSetup(u)
  {
    keys != [] && (Low(u, keys[0]) || High(u, keys[|keys| - 1]))
  }

  // ---- What one pull asks for ----

  function AsksOf(u: Setup, keys: seq<int>): seq<Ask>
    requires ValidSetup(u) && Pullable(u, keys)
  {
    PullAsks(u.cuts, u.range, u.serverIds, keys)
  }

  predicate AllLow(u: Setup, keys: seq<int>)
    requires ValidSetup(u)
  {
    forall i :: 0 <= i < |keys| ==> Low(u, keys[i])
  }

  predicate AllHigh(u: Setup, keys: seq<int>)
    requires ValidSetup(u)
  {
    forall i :: 0 <= i < |keys| ==> High(u, keys[i])
  }

  predicate NoneLast(u: Setup, keys: seq<int>)
    requires ValidSetup(u)
  {
    forall i :: 0 <= i < |keys| ==> !Low(u, keys[i]) && !High(u, keys[i])
  }

  /** A request to the last server is for keys on one side of the circle's end, and no other request
      is for keys of the last server. */
  predicate Sided(u: Setup, ask: Ask)
    requires ValidSetup(u)
  {
    ask.keys != [] && ask.id in u.serverIds
    && if ask.id == LastServer(u) then AllLow(u, ask.keys) || AllHigh(u, ask.keys) else NoneLast(u, ask.keys)
  }

  /** The block is not empty, and if it starts with a wrapped key it ends with one. */
  predicate WrapsAlone(cuts: seq<int>, keys: seq<int>, b: KeyBlock)
    requires |cuts| >= 1
  {
    b.from < b.to <= |keys| && (keys[b.from] < cuts[0] ==> keys[b.to - 1] < cuts[0])
  }

  lemma {:induction false} WrappedBlocks(cuts: seq<int>, range: int, keys: seq<int>, start: nat)
    requires ValidCuts(cuts, range) && Sorted(keys) && InRange(keys, range) && start <= |keys|
    ensures forall b :: 0 <= b < |Split(cuts, range, keys, start)| ==> WrapsAlone(cuts, keys, Split(cuts, range, keys, start)[b])
    decreases |keys| - start
  {
    if start < |keys| {
      NextEndIsBlock(cuts, range, keys, start);
      WrappedBlocks(cuts, range, keys, NextEnd(cuts, range, keys, start));
      SplitStep(cuts, range, keys, start);
    }
  }

  lemma OwnerIsLastIff(u: Setup, key: int)
    requires ValidSetup(u) && 0 <= key < u.range
    ensures GetServer(u.cuts, u.range, key) == |u.cuts| - 1 <==> Low(u, key) || High(u, key)
  {
    OwnerHasLastCut(u.cuts, u.range, key);
  }

  lemma BlockIsSided(u: Setup, keys: seq<int>, b: KeyBlock)
    requires ValidSetup(u) && Pullable(u, keys) && b.from < b.to <= |keys| && 0 <= b.server < |u.cuts|
    requires SingleOwner(u.cuts, u.range, keys, b)
    requires keys[b.from] < u.cuts[0] ==> keys[b.to - 1] < u.cuts[0]
    ensures Sided(u, Ask(u.serverIds[b.server], keys[b.from..b.to]))
  {
    hide GetServer;
    var mine := keys[b.from..b.to];
    forall i | 0 <= i < |mine|
      ensures b.server == |u.cuts| - 1 <==> Low(u, mine[i]) || High(u, mine[i])
      ensures keys[b.from] <= mine[i] <= keys[b.to - 1]
    {
      OwnerIsLastIff(u, keys[b.from + i]);
    }
    assert u.serverIds[b.server] == LastServer(u) <==> b.server == |u.cuts| - 1;
    if b.server == |u.cuts| - 1 {
      if keys[b.from] < u.cuts[0] {
        assert AllLow(u, mine);
      } else {
        assert AllHigh(u, mine);
      }
    }
  }

  lemma AsksAreSided(u: Setup, keys: seq<int>)
    requires ValidSetup(u) && Pullable(u, keys)
    ensures forall i :: 0 <= i < |AsksOf(u, keys)| ==> Sided(u, AsksOf(u, keys)[i])
  {
    hide Split, SingleOwner;
    var blocks := Split(u.cuts, u.range, keys, 0);
    SplitTiles(u.cuts, u.range, keys, 0);
    WrappedBlocks(u.cuts, u.range, keys, 0);
    forall i | 0 <= i < |blocks|
      ensures Sided(u, AsksOf(u, keys)[i])
    {
      assert WrapsAlone(u.cuts, keys, blocks[i]);
      BlockIsSided(u, keys, blocks[i]);
    }
  }

  lemma ServedTwiceOnlyAtEnds(cuts: seq<int>, range: int, keys: seq<int>, i: nat, j: nat)
    requires ValidCuts(cuts, range) && Sorted(keys) && InRange(keys, range) && i < j < |Split(cuts, range, keys, 0)|
    requires Split(cuts, range, keys, 0)[i].server == Split(cuts, range, keys, 0)[j].server
    ensures keys != [] && keys[0] < cuts[0] && cuts[|cuts| - 1] <= keys[|keys| - 1]
    ensures i == 0 && j == |Split(cuts, range, keys, 0)| - 1
  {
    hide Split, ValidCuts, Sorted, InRange;
    SplitShape(cuts, range, keys);
    if keys == [] {
      NothingToSplit(cuts, range, keys);
      assert false;
    } else {
      ServerTwiceIff(cuts, range, keys);
    }
  }

  /** Only the first and the last request of a pull that spans the circle go to the same server. */
  lemma AskedTwiceOnlyAtEnds(u: Setup, keys: seq<int>, i: nat, j: nat)
    requires ValidSetup(u) && Pullable(u, keys) && i < j < |AsksOf(u, keys)|
    requires AsksOf(u, keys)[i].id == AsksOf(u, keys)[j].id
    ensures Spans(u, keys) && i == 0 && j == |AsksOf(u, keys)| - 1
  {
    hide Split, SingleOwner, Sorted, InRange;
    var blocks := Split(u.cuts, u.range, keys, 0);
    SplitTiles(u.cuts, u.range, keys, 0);
    assert u.serverIds[blocks[i].server] == u.serverIds[blocks[j].server];
    assert blocks[i].server == blocks[j].server;
    ServedTwiceOnlyAtEnds(u.cuts, u.range, keys, i, j);
  }

  /** The keys asked for at both ends of a pull. */
  lemma AskEnds(u: Setup, keys: seq<int>)
    requires ValidSetup(u) && Pullable(u, keys) && keys != []
    ensures var asks := AsksOf(u, keys);
            && asks != [] && asks[0].keys != [] && asks[0].keys[0] == keys[0]
            && var last := asks[|asks| - 1];
               last.keys != [] && last.keys[|last.keys| - 1] == keys[|keys| - 1]
  {
    hide Split;
    SplitTiles(u.cuts, u.range, keys, 0);
  }

  /** The ends of a pull that spans the circle both go to the last server, one for each side. */
  lemma SpanningEnds(u: Setup, keys: seq<int>)
    requires ValidSetup(u) && Pullable(u, keys) && Spans(u, keys)
    ensures var asks := AsksOf(u, keys);
            && |asks| >= 2
            && asks[0].id == asks[|asks| - 1].id == LastServer(u)
            && AllLow(u, asks[0].keys) && AllHigh(u, asks[|asks| - 1].keys)
  {
    hide AsksOf;
    AskEnds(u, keys);
    AsksAreSided(u, keys);
    var asks := AsksOf(u, keys);
    var first, last := asks[0].keys, asks[|asks| - 1].keys;
    assert Low(u, first[0]) && High(u, last[|last| - 1]);
  }

  lemma AsksLastIff(u: Setup, keys: seq<int>)
    requires ValidSetup(u) && Pullable(u, keys)
    ensures AsksLast(u, keys) <==> exists i :: 0 <= i < |AsksOf(u, keys)| && AsksOf(u, keys)[i].id == LastServer(u)
  {
    AsksAreSided(u, keys);
    if AsksLast(u, keys) {
      AskEnds(u, keys);
    }
    forall i | 0 <= i < |AsksOf(u, keys)| && AsksOf(u, keys)[i].id == LastServer(u)
      ensures AsksLast(u, keys)
    {
      AskKeysAreKeys(u, keys, i);
      var mine := AsksOf(u, keys)[i].keys;
      assert Low(u, mine[0]) || High(u, mine[0]);
    }
  }

  lemma AskKeysAreKeys(u: Setup, keys: seq<int>, i: nat)
    requires ValidSetup(u) && Pullable(u, keys) && i < |AsksOf(u, keys)|
    ensures AsksOf(u, keys)[i].keys != [] && keys != []
    ensures forall x :: 0 <= x < |AsksOf(u, keys)[i].keys| ==> keys[0] <= AsksOf(u, keys)[i].keys[x] <= keys[|keys| - 1]
  {
    hide Split, SingleOwner, GetServer;
    SplitTiles(u.cuts, u.range, keys, 0);
    var b := Split(u.cuts, u.range, keys, 0)[i];
    assert b.from < b.to <= |keys| && AsksOf(u, keys)[i].keys == keys[b.from..b.to];
  }

  // ---- Pulls one after the other ----

  /** A reply that a server owes: to which pull and to which of its requests. */
  datatype Due = Due(pull: nat, ask: Ask)

  /** One pull: its sorted keys, the messages that its loop reads, and the replies among them. */
  datatype Pull = Pull(keys: seq<int>, incoming: seq<Incoming>, dues: seq<Due>)

  function Dues(k: nat, asks: seq<Ask>): (dues: seq<Due>)
    ensures |dues| == |asks| && forall i :: 0 <= i < |asks| ==> dues[i] == Due(k, asks[i])
  {
    if asks == [] then [] else Dues(k, asks[..|asks| - 1]) + [Due(k, asks[|asks| - 1])]
  }

  /** The replies of one server, in the order in which they are listed. */
  function From(dues: seq<Due>, id: int): (mine: seq<Due>)
    ensures forall i :: 0 <= i < |mine| ==> mine[i] in dues && mine[i].ask.id == id
  {
    if dues == [] then
      []
    else
      var last := dues[|dues| - 1];
      From(dues[..|dues| - 1], id) + if last.ask.id == id then [last] else []
  }

  /** What server `id` still owes after some pulls. It answers one request after the other, and its
      replies arrive in that order; between the replies of different servers there is no order. */
  function Queue(u: Setup, pulls: seq<Pull>, id: int): (queue: seq<Due>)
    requires ValidSetup(u) && forall k :: 0 <= k < |pulls| ==> Pullable(u, pulls[k].keys)
    ensures forall i :: 0 <= i < |queue| ==> queue[i].ask.id == id
    decreases |pulls|, 0
  {
    if pulls == [] then
      []
    else
      var last := pulls[|pulls| - 1];
      var queue := QueueDuring(u, pulls[..|pulls| - 1], last.keys, id);
      var read := |From(last.dues, id)|;
      if read <= |queue| then queue[read..] else []
  }

  /** What server `id` can send during the next pull: what it still owes, then the replies to the new
      requests. */
  function QueueDuring(u: Setup, before: seq<Pull>, keys: seq<int>, id: int): (queue: seq<Due>)
    requires ValidSetup(u) && Pullable(u, keys) && forall k :: 0 <= k < |before| ==> Pullable(u, before[k].keys)
    ensures forall i :: 0 <= i < |queue| ==> queue[i].ask.id == id
    decreases |before|, 1
  {
    Queue(u, before, id) + From(Dues(|before|, AsksOf(u, keys)), id)
  }

  /** What is read of every server is what it sends first. */
  predicate InOrder(u: Setup, before: seq<Pull>, keys: seq<int>, dues: seq<Due>)
    requires ValidSetup(u) && Pullable(u, keys) && forall k :: 0 <= k < |before| ==> Pullable(u, before[k].keys)
  {
    forall id :: id in u.serverIds ==> From(dues, id) <= QueueDuring(u, before, keys, id)
  }

  /** A reply of one of the agent's servers. Anything else that arrives is noise. */
  predicate FromServer(u: Setup, m: Incoming) {
    IsReply(u.localId, m) && m.message.sendId in u.serverIds
  }

  /** The replies among incoming[from..] are answers to dues[d..], in this order; a server answers with
      its values at the time of the pull that asked. */
  predicate Answered(u: Setup, incoming: seq<Incoming>, from: nat, dues: seq<Due>, d: nat, values: seq<int -> real>)
    requires from <= |incoming| && d <= |dues|
    decreases |incoming| - from
  {
    if from == |incoming| then
      d == |dues|
    else if FromServer(u, incoming[from]) then
      && d < |dues| && dues[d].pull < |values|
      && AnswersAsk(incoming[from].message, dues[d].ask, values[dues[d].pull])
      && Answered(u, incoming, from + 1, dues, d + 1, values)
    else
      Answered(u, incoming, from + 1, dues, d, values)
  }

  /** The loop that awaits `asked` reads exactly incoming[from..]. */
  predicate Ends(asked: set<int>, localId: int, incoming: seq<Incoming>, from: nat)
    requires from <= |incoming|
    decreases |incoming| - from
  {
    if asked == {} then
      from == |incoming|
    else
      from < |incoming|
      && Ends(if Accepts(asked, localId, incoming[from]) then asked - {incoming[from].message.sendId} else asked,
              localId, incoming, from + 1)
  }

  /** A possible next pull: each server's replies arrive in the order in which it owes them, and replies of
      different servers and noise in any order. */
  predicate NextPull(u: Setup, before: seq<Pull>, p: Pull, values: seq<int -> real>)
    requires ValidSetup(u) && forall k :: 0 <= k < |before| ==> Pullable(u, before[k].keys)
  {
    && Pullable(u, p.keys)
    && ValuesForKeys(u.localId, p.incoming)
    && Answered(u, p.incoming, 0, p.dues, 0, values)
    && InOrder(u, before, p.keys, p.dues)
    && Ends(AskedIds(AsksOf(u, p.keys)), u.localId, p.incoming, 0)
  }

  /** Some pulls in a row, in one of the possible orders of arrival. */
  predicate History(u: Setup, pulls: seq<Pull>, values: seq<int -> real>)
    requires ValidSetup(u)
    ensures History(u, pulls, values) ==> forall k :: 0 <= k < |pulls| ==> Pullable(u, pulls[k].keys)
    decreases |pulls|
  {
    pulls == []
    || (History(u, pulls[..|pulls| - 1], values) && NextPull(u, pulls[..|pulls| - 1], pulls[|pulls| - 1], values))
  }

  /** The pull collects every requested key once, with its server's value at the time of this pull. */
  predicate Complete(u: Setup, p: Pull, valueAt: int -> real)
    requires ValuesForKeys(u.localId, p.incoming) && ValidSetup(u) && Pullable(u, p.keys)
  {
    multiset(Gathered(AskedIds(AsksOf(u, p.keys)), u.localId, p.incoming, 0)) == multiset(WithValues(p.keys, valueAt))
  }

  lemma {:induction false} EndsAnswers(asked: set<int>, localId: int, incoming: seq<Incoming>, from: nat)
    requires from <= |incoming| && Ends(asked, localId, incoming, from)
    ensures forall id :: id in asked ==> Answers(id, localId, incoming, from)
    decreases |incoming| - from
  {
    if asked != {} {
      if Accepts(asked, localId, incoming[from]) {
        var sender := incoming[from].message.sendId;
        EndsAnswers(asked - {sender}, localId, incoming, from + 1);
        assert forall id :: id in asked ==> id == sender || id in asked - {sender};
      } else {
        EndsAnswers(asked, localId, incoming, from + 1);
      }
    }
  }

  /** The request that a reply answers. */
  lemma {:induction false} ReplyHasDue(u: Setup, incoming: seq<Incoming>, from: nat, dues: seq<Due>, d: nat,
                                       values: seq<int -> real>, p: nat) returns (e: nat)
    requires from <= p < |incoming| && d <= |dues| && Answered(u, incoming, from, dues, d, values)
    requires FromServer(u, incoming[p])
    ensures d <= e < |dues| && dues[e].pull < |values|
    ensures AnswersAsk(incoming[p].message, dues[e].ask, values[dues[e].pull])
    decreases |incoming| - from
  {
    if from == p {
      e := d;
    } else if FromServer(u, incoming[from]) {
      e := ReplyHasDue(u, incoming, from + 1, dues, d + 1, values, p);
    } else {
      e := ReplyHasDue(u, incoming, from + 1, dues, d, values, p);
    }
  }

  // ---- What is in the queues ----

  lemma {:induction false} FromHas(dues: seq<Due>, e: nat)
    requires e < |dues|
    ensures dues[e] in From(dues, dues[e].ask.id)
  {
    if e < |dues| - 1 {
      FromHas(dues[..|dues| - 1], e);
    }
  }

  lemma {:induction false} FromNobody(dues: seq<Due>, id: int)
    requires forall e :: 0 <= e < |dues| ==> dues[e].ask.id != id
    ensures From(dues, id) == []
  {
    if dues != [] {
      FromNobody(dues[..|dues| - 1], id);
    }
  }

  /** A single reply of a server. */
  lemma {:induction false} FromOnly(dues: seq<Due>, e: nat)
    requires e < |dues| && forall d :: 0 <= d < |dues| && d != e ==> dues[d].ask.id != dues[e].ask.id
    ensures From(dues, dues[e].ask.id) == [dues[e]]
  {
    if e == |dues| - 1 {
      FromNobody(dues[..|dues| - 1], dues[e].ask.id);
    } else {
      FromOnly(dues[..|dues| - 1], e);
    }
  }

  /** Whatever is owed was asked for in the pull it belongs to. */
  lemma {:induction false} QueueWasAsked(u: Setup, pulls: seq<Pull>, id: int, due: Due)
    requires ValidSetup(u) && forall k :: 0 <= k < |pulls| ==> Pullable(u, pulls[k].keys)
    requires due in Queue(u, pulls, id)
    ensures due.pull < |pulls| && due.ask in AsksOf(u, pulls[due.pull].keys)
    decreases |pulls|
  {
    hide AsksOf;
    var before, last := pulls[..|pulls| - 1], pulls[|pulls| - 1];
    assert due in QueueDuring(u, before, last.keys, id);
    if due in Queue(u, before, id) {
      QueueWasAsked(u, before, id, due);
    } else {
      assert due in Dues(|before|, AsksOf(u, last.keys));
    }
  }

  lemma QueueDuringIsSided(u: Setup, before: seq<Pull>, keys: seq<int>, id: int, due: Due)
    requires ValidSetup(u) && Pullable(u, keys) && forall k :: 0 <= k < |before| ==> Pullable(u, before[k].keys)
    requires due in QueueDuring(u, before, keys, id)
    ensures Sided(u, due.ask) && due.pull <= |before|
  {
    hide AsksOf, Sided;
    if due in Queue(u, before, id) {
      QueueWasAsked(u, before, id, due);
      AsksAreSided(u, before[due.pull].keys);
    } else {
      AsksAreSided(u, keys);
      assert due in Dues(|before|, AsksOf(u, keys));
    }
  }

  lemma {:induction false} ReadsAreFromServers(u: Setup, incoming: seq<Incoming>, from: nat, dues: seq<Due>, d: nat,
                                               values: seq<int -> real>)
    requires from <= |incoming| && d <= |dues| && Answered(u, incoming, from, dues, d, values)
    ensures forall e :: d <= e < |dues| ==> dues[e].ask.id in u.serverIds
    decreases |incoming| - from
  {
    if from < |incoming| {
      var d' := if FromServer(u, incoming[from]) then d + 1 else d;
      ReadsAreFromServers(u, incoming, from + 1, dues, d', values);
    }
  }

  /** What a pull reads is at the front of the queue of its sender. */
  lemma ReadIsQueued(u: Setup, before: seq<Pull>, p: Pull, values: seq<int -> real>, e: nat)
    requires ValidSetup(u) && (forall k :: 0 <= k < |before| ==> Pullable(u, before[k].keys)) && NextPull(u, before, p, values)
    requires e < |p.dues|
    ensures p.dues[e].ask.id in u.serverIds
    ensures p.dues[e] in QueueDuring(u, before, p.keys, p.dues[e].ask.id)
  {
    hide QueueDuring, AsksOf;
    ReadsAreFromServers(u, p.incoming, 0, p.dues, 0, values);
    FromHas(p.dues, e);
    var mine, queue := From(p.dues, p.dues[e].ask.id), QueueDuring(u, before, p.keys, p.dues[e].ask.id);
    assert mine <= queue;
    var i :| 0 <= i < |mine| && mine[i] == p.dues[e];
    assert queue[i] == p.dues[e];
  }

  // ---- When a pull is complete in every order ----

  lemma {:induction false} AnswersAt(id: int, localId: int, incoming: seq<Incoming>, from: nat) returns (p: nat)
    requires from <= |incoming| && Answers(id, localId, incoming, from)
    ensures from <= p < |incoming| && IsReply(localId, incoming[p]) && incoming[p].message.sendId == id
    decreases |incoming| - from
  {
    if IsReply(localId, incoming[from]) && incoming[from].message.sendId == id {
      p := from;
    } else {
      p := AnswersAt(id, localId, incoming, from + 1);
    }
  }

  /** A pull reads a reply of every server it asks. */
  lemma ReadsFrom(u: Setup, before: seq<Pull>, p: Pull, values: seq<int -> real>, id: int)
    requires ValidSetup(u) && forall k :: 0 <= k < |before| ==> Pullable(u, before[k].keys)
    requires NextPull(u, before, p, values) && id in AskedIds(AsksOf(u, p.keys)) && id in u.serverIds
    ensures |From(p.dues, id)| >= 1
  {
    hide AsksOf, AskedIds, QueueDuring;
    EndsAnswers(AskedIds(AsksOf(u, p.keys)), u.localId, p.incoming, 0);
    var at := AnswersAt(id, u.localId, p.incoming, 0);
    var e := ReplyHasDue(u, p.incoming, 0, p.dues, 0, values, at);
    FromHas(p.dues, e);
  }

  predicate NotAskedTwice(asks: seq<Ask>, id: int) {
    forall i, j :: 0 <= i < j < |asks| ==> asks[i].id != id || asks[j].id != id
  }

  lemma {:induction false} FromAtMostOne(asks: seq<Ask>, k: nat, id: int)
    requires NotAskedTwice(asks, id)
    ensures |From(Dues(k, asks), id)| <= 1
  {
    var dues := Dues(k, asks);
    if e :| 0 <= e < |dues| && dues[e].ask.id == id {
      FromOnly(dues, e);
    } else {
      FromNobody(dues, id);
    }
  }

  /** A server that owes nothing and is asked at most once owes nothing after the pull. */
  lemma StaysClean(u: Setup, before: seq<Pull>, p: Pull, values: seq<int -> real>, id: int)
    requires ValidSetup(u) && forall k :: 0 <= k < |before| ==> Pullable(u, before[k].keys)
    requires NextPull(u, before, p, values) && Queue(u, before, id) == [] && id in u.serverIds
    requires NotAskedTwice(AsksOf(u, p.keys), id)
    ensures Queue(u, before + [p], id) == []
  {
    hide AsksOf, Answered, Ends, Pullable, ValidSetup, From;
    assert (before + [p])[..|before + [p]| - 1] == before;
    FromAtMostOne(AsksOf(u, p.keys), |before|, id);
    if id in AskedIds(AsksOf(u, p.keys)) {
      ReadsFrom(u, before, p, values, id);
    } else {
      NotAskedNotDue(AsksOf(u, p.keys), |before|, id);
    }
  }

  lemma NotAskedNotDue(asks: seq<Ask>, k: nat, id: int)
    requires id !in AskedIds(asks)
    ensures From(Dues(k, asks), id) == []
  {
    FromNobody(Dues(k, asks), id);
  }

  lemma HistorySplits(u: Setup, pulls: seq<Pull>, values: seq<int -> real>) returns (before: seq<Pull>, p: Pull)
    requires ValidSetup(u) && History(u, pulls, values) && pulls != []
    ensures pulls == before + [p] && |before| == |pulls| - 1 && p == pulls[|before|]
    ensures forall k :: 0 <= k < |before| ==> before[k] == pulls[k]
    ensures History(u, before, values) && Pullable(u, p.keys)
    ensures (forall k :: 0 <= k < |before| ==> Pullable(u, before[k].keys)) && NextPull(u, before, p, values)
  {
    hide InOrder, Answered, Ends, AsksOf;
    before, p := pulls[..|pulls| - 1], pulls[|pulls| - 1];
  }

  /** Only the last server can owe a reply to an earlier pull, and only if one of them spanned the
      circle. */
  lemma {:induction false} CleanUnlessSpanned(u: Setup, pulls: seq<Pull>, values: seq<int -> real>, id: int)
    requires ValidSetup(u) && History(u, pulls, values) && id in u.serverIds
    requires forall k :: 0 <= k < |pulls| ==> Pullable(u, pulls[k].keys)
    requires id != LastServer(u) || forall k :: 0 <= k < |pulls| ==> !Spans(u, pulls[k].keys)
    ensures Queue(u, pulls, id) == []
    decreases |pulls|
  {
    hide AsksOf, NextPull, Spans, History, Pullable, ValidSetup, LastServer, QueueDuring;
    if pulls != [] {
      var before, p := HistorySplits(u, pulls, values);
      CleanUnlessSpanned(u, before, values, id);
      AskedOnceUnlessSpanning(u, p.keys, id);
      StaysClean(u, before, p, values, id);
    }
  }

  lemma AskedOnceUnlessSpanning(u: Setup, keys: seq<int>, id: int)
    requires ValidSetup(u) && Pullable(u, keys) && (id != LastServer(u) || !Spans(u, keys))
    ensures NotAskedTwice(AsksOf(u, keys), id)
  {
    hide AsksOf;
    var asks := AsksOf(u, keys);
    forall i, j | 0 <= i < j < |asks| && asks[i].id == asks[j].id
      ensures asks[i].id != id
    {
      AskedTwiceOnlyAtEnds(u, keys, i, j);
      SpanningEnds(u, keys);
    }
  }

  /** What a pull reads from a server that owes nothing else answers one of its own requests. */
  lemma ReadsOwn(u: Setup, before: seq<Pull>, p: Pull, values: seq<int -> real>, at: nat) returns (j: nat)
    requires ValidSetup(u) && forall k :: 0 <= k < |before| ==> Pullable(u, before[k].keys)
    requires NextPull(u, before, p, values) && |values| == |before| + 1
    requires at < |p.incoming| && FromServer(u, p.incoming[at])
    requires Queue(u, before, p.incoming[at].message.sendId) == []
    ensures j < |AsksOf(u, p.keys)| && AnswersAsk(p.incoming[at].message, AsksOf(u, p.keys)[j], values[|before|])
  {
    hide AsksOf, Ends, InOrder, Queue;
    var e := ReplyHasDue(u, p.incoming, 0, p.dues, 0, values, at);
    ReadIsQueued(u, before, p, values, e);
    var own := Dues(|before|, AsksOf(u, p.keys));
    assert p.dues[e] in From(own, p.dues[e].ask.id);
    assert p.dues[e] in own;
    j :| 0 <= j < |own| && own[j] == p.dues[e];
  }

  lemma AskedAreServers(u: Setup, keys: seq<int>, id: int)
    requires ValidSetup(u) && Pullable(u, keys) && id in AskedIds(AsksOf(u, keys))
    ensures id in u.serverIds && (id == LastServer(u) ==> AsksLast(u, keys))
  {
    hide AsksOf;
    AskedIdsAreAsked(AsksOf(u, keys), id);
    var j := SomeAsk(AsksOf(u, keys), id);
    AsksAreSided(u, keys);
    AsksLastIff(u, keys);
  }

  lemma ReadsAreHonest(u: Setup, before: seq<Pull>, p: Pull, values: seq<int -> real>)
    requires ValidSetup(u) && History(u, before, values) && NextPull(u, before, p, values) && |values| == |before| + 1
    requires AsksLast(u, p.keys) ==> forall k :: 0 <= k < |before| ==> !Spans(u, before[k].keys)
    ensures Honest(AsksOf(u, p.keys), u.localId, p.incoming, values[|before|])
  {
    hide History, NextPull, AskedIds, AsksLast, AsksOf, Queue, Spans, ValidSetup, AnswersAsk;
    NextIsPullable(u, before, p, values);
    var asks := AsksOf(u, p.keys);
    forall at | 0 <= at < |p.incoming| && IsReply(u.localId, p.incoming[at])
                && p.incoming[at].message.sendId in AskedIds(asks)
      ensures exists j :: 0 <= j < |asks| && AnswersAsk(p.incoming[at].message, asks[j], values[|before|])
    {
      var id := p.incoming[at].message.sendId;
      AskedAreServers(u, p.keys, id);
      CleanUnlessSpanned(u, before, values, id);
      var j := ReadsOwn(u, before, p, values, at);
    }
  }

  lemma NextIsPullable(u: Setup, before: seq<Pull>, p: Pull, values: seq<int -> real>)
    requires ValidSetup(u) && (forall k :: 0 <= k < |before| ==> Pullable(u, before[k].keys)) && NextPull(u, before, p, values)
    ensures Pullable(u, p.keys) && ValuesForKeys(u.localId, p.incoming)
    ensures forall id :: id in AskedIds(AsksOf(u, p.keys)) ==> Answers(id, u.localId, p.incoming, 0)
  {
    EndsAnswers(AskedIds(AsksOf(u, p.keys)), u.localId, p.incoming, 0);
  }

  /** What PullAskFacts says, for this setup. */
  lemma AskFacts(u: Setup, keys: seq<int>, valueAt: int -> real)
    requires ValidSetup(u) && Pullable(u, keys) && keys != []
    ensures var asks := AsksOf(u, keys);
            && AskedPairs(asks, AskedIds(asks), valueAt) == multiset(WithValues(keys, valueAt))
            && (forall i :: 0 <= i < |asks| ==> asks[i].keys != [])
            && (SomeAskedTwice(asks, AskedIds(asks)) <==> Spans(u, keys))
  {
    hide PullAsks, AskedPairs, AskedIds, SomeAskedTwice, WithValues;
    PullAskFacts(u.cuts, u.range, u.serverIds, keys, valueAt);
  }

  /** A pull that does not span the circle is complete in every order of arrival, unless it asks the
      last server and some earlier pull did span the circle. */
  lemma CompleteUnlessSpanned(u: Setup, before: seq<Pull>, p: Pull, values: seq<int -> real>)
    requires ValidSetup(u) && History(u, before, values) && NextPull(u, before, p, values) && |values| == |before| + 1
    requires !Spans(u, p.keys)
    requires AsksLast(u, p.keys) ==> forall k :: 0 <= k < |before| ==> !Spans(u, before[k].keys)
    ensures Complete(u, p, values[|before|])
  {
    NextIsPullable(u, before, p, values);
    ReadsAreHonest(u, before, p, values);
    HonestIsComplete(u, p, values[|before|]);
  }

  lemma HonestIsComplete(u: Setup, p: Pull, valueAt: int -> real)
    requires ValidSetup(u) && Pullable(u, p.keys) && ValuesForKeys(u.localId, p.incoming) && !Spans(u, p.keys)
    requires forall id :: id in AskedIds(AsksOf(u, p.keys)) ==> Answers(id, u.localId, p.incoming, 0)
    requires Honest(AsksOf(u, p.keys), u.localId, p.incoming, valueAt)
    ensures Complete(u, p, valueAt)
  {
    hide AsksOf, Gathered, Answers, AskedIds, AskedPairs, SomeAskedTwice, WithValues, Honest, Spans, ValidSetup, Pullable;
    if p.keys == [] {
      NothingToAsk(u, p, valueAt);
    } else {
      AskFacts(u, p.keys, valueAt);
      GatheringIsCompleteIff(AsksOf(u, p.keys), u.localId, p.incoming, valueAt);
    }
  }

  lemma NothingToAsk(u: Setup, p: Pull, valueAt: int -> real)
    requires ValidSetup(u) && Pullable(u, p.keys) && ValuesForKeys(u.localId, p.incoming) && p.keys == []
    ensures Complete(u, p, valueAt)
  {
    assert AskedIds(AsksOf(u, p.keys)) == {};
    assert WithValues(p.keys, valueAt) == [];
  }

  // ---- When it is not ----

  predicate SomeLow(u: Setup, pairs: KeyValueList)
    requires ValidSetup(u)
  {
    exists i :: 0 <= i < |pairs| && Low(u, pairs[i].0)
  }

  predicate SomeHigh(u: Setup, pairs: KeyValueList)
    requires ValidSetup(u)
  {
    exists i :: 0 <= i < |pairs| && High(u, pairs[i].0)
  }

  /** What one sided reply brings. */
  lemma RepliesAreSided(u: Setup, ask: Ask, keys: seq<int>, values: seq<real>)
    requires ValidSetup(u) && Sided(u, ask) && keys == ask.keys && |keys| <= |values|
    ensures !(SomeLow(u, Pairs(keys, values)) && SomeHigh(u, Pairs(keys, values)))
    ensures ask.id != LastServer(u) ==> !SomeLow(u, Pairs(keys, values)) && !SomeHigh(u, Pairs(keys, values))
  {
    assert u.cuts[0] <= u.cuts[|u.cuts| - 1];
  }

  lemma SidesConcat(u: Setup, a: KeyValueList, b: KeyValueList)
    requires ValidSetup(u)
    ensures SomeLow(u, a + b) ==> SomeLow(u, a) || SomeLow(u, b)
    ensures SomeHigh(u, a + b) ==> SomeHigh(u, a) || SomeHigh(u, b)
  {
    assert forall i :: 0 <= i < |a + b| ==> (a + b)[i] == if i < |a| then a[i] else b[i - |a|];
  }

  /** As only one reply of the last server is taken, a pull never collects keys of both its sides. */
  lemma {:induction false} GatheredIsSided(u: Setup, asked: set<int>, incoming: seq<Incoming>, from: nat,
                                           dues: seq<Due>, d: nat, values: seq<int -> real>)
    requires ValidSetup(u) && ValuesForKeys(u.localId, incoming) && from <= |incoming| && d <= |dues|
    requires Answered(u, incoming, from, dues, d, values)
    requires forall e :: 0 <= e < |dues| ==> Sided(u, dues[e].ask)
    requires forall id :: id in asked ==> id in u.serverIds
    ensures var pairs := Gathered(asked, u.localId, incoming, from);
            && !(SomeLow(u, pairs) && SomeHigh(u, pairs))
            && (LastServer(u) !in asked ==> !SomeLow(u, pairs) && !SomeHigh(u, pairs))
    decreases |incoming| - from
  {
    hide Sided, AnswersAsk, SomeLow, SomeHigh;
    if asked == {} || from == |incoming| {
      NothingIsSided(u);
    } else if Accepts(asked, u.localId, incoming[from]) {
      var m := incoming[from].message;
      ReplyIsSided(u, m, dues[d], values);
      GatheredIsSided(u, asked - {m.sendId}, incoming, from + 1, dues, d + 1, values);
      SidesConcat(u, Pairs(m.request.value.keys, m.request.value.values),
                  Gathered(asked - {m.sendId}, u.localId, incoming, from + 1));
    } else {
      var d' := if FromServer(u, incoming[from]) then d + 1 else d;
      GatheredIsSided(u, asked, incoming, from + 1, dues, d', values);
    }
  }

  lemma NothingIsSided(u: Setup)
    requires ValidSetup(u)
    ensures !SomeLow(u, []) && !SomeHigh(u, [])
  {
  }

  lemma ReplyIsSided(u: Setup, m: Message, due: Due, values: seq<int -> real>)
    requires ValidSetup(u) && m.request.Some? && due.pull < |values| && AnswersAsk(m, due.ask, values[due.pull])
    requires Sided(u, due.ask) && |m.request.value.keys| <= |m.request.value.values|
    ensures var pairs := Pairs(m.request.value.keys, m.request.value.values);
            && !(SomeLow(u, pairs) && SomeHigh(u, pairs))
            && (m.sendId != LastServer(u) ==> !SomeLow(u, pairs) && !SomeHigh(u, pairs))
  {
    RepliesAreSided(u, due.ask, m.request.value.keys, m.request.value.values);
  }

  lemma DuesAreSided(u: Setup, before: seq<Pull>, p: Pull, values: seq<int -> real>)
    requires ValidSetup(u) && (forall k :: 0 <= k < |before| ==> Pullable(u, before[k].keys)) && NextPull(u, before, p, values)
    ensures forall e :: 0 <= e < |p.dues| ==> Sided(u, p.dues[e].ask)
  {
    hide Sided, QueueDuring, AsksOf;
    forall e | 0 <= e < |p.dues|
      ensures Sided(u, p.dues[e].ask)
    {
      ReadIsQueued(u, before, p, values, e);
      QueueDuringIsSided(u, before, p.keys, p.dues[e].ask.id, p.dues[e]);
    }
  }

  /** What a complete pull has collected. */
  lemma CollectsAll(u: Setup, p: Pull, valueAt: int -> real, i: nat)
    requires ValidSetup(u) && Pullable(u, p.keys) && ValuesForKeys(u.localId, p.incoming) && Complete(u, p, valueAt)
    requires i < |p.keys|
    ensures (p.keys[i], valueAt(p.keys[i])) in Gathered(AskedIds(AsksOf(u, p.keys)), u.localId, p.incoming, 0)
  {
    var wanted := WithValues(p.keys, valueAt);
    assert wanted[i] in multiset(wanted);
    assert wanted[i] in multiset(Gathered(AskedIds(AsksOf(u, p.keys)), u.localId, p.incoming, 0));
  }

  lemma CollectsEnds(u: Setup, p: Pull, valueAt: int -> real)
    requires ValidSetup(u) && Pullable(u, p.keys) && ValuesForKeys(u.localId, p.incoming) && Complete(u, p, valueAt)
    requires Spans(u, p.keys)
    ensures var pairs := Gathered(AskedIds(AsksOf(u, p.keys)), u.localId, p.incoming, 0);
            SomeLow(u, pairs) && SomeHigh(u, pairs)
  {
    hide Gathered, AskedIds, AsksOf, Complete;
    CollectsAll(u, p, valueAt, 0);
    CollectsAll(u, p, valueAt, |p.keys| - 1);
    var pairs := Gathered(AskedIds(AsksOf(u, p.keys)), u.localId, p.incoming, 0);
    var i :| 0 <= i < |pairs| && pairs[i] == (p.keys[0], valueAt(p.keys[0]));
    var j :| 0 <= j < |pairs| && pairs[j] == (p.keys[|p.keys| - 1], valueAt(p.keys[|p.keys| - 1]));
    assert Low(u, pairs[i].0) && High(u, pairs[j].0);
  }

  /** A pull that spans the circle is incomplete in every order of arrival. */
  lemma SpanningIsIncomplete(u: Setup, before: seq<Pull>, p: Pull, values: seq<int -> real>, valueAt: int -> real)
    requires ValidSetup(u) && (forall k :: 0 <= k < |before| ==> Pullable(u, before[k].keys)) && NextPull(u, before, p, values)
    requires Spans(u, p.keys)
    ensures !Complete(u, p, valueAt)
  {
    hide Gathered, AskedIds, AsksOf, QueueDuring, Sided, Ends, Complete, SomeLow, SomeHigh, Spans;
    DuesAreSided(u, before, p, values);
    forall id | id in AskedIds(AsksOf(u, p.keys))
      ensures id in u.serverIds
    {
      AskedAreServers(u, p.keys, id);
    }
    GatheredIsSided(u, AskedIds(AsksOf(u, p.keys)), p.incoming, 0, p.dues, 0, values);
    if Complete(u, p, valueAt) {
      CollectsEnds(u, p, valueAt);
      assert false;
    }
  }

  // ---- Orders that exist ----

  function ValuesOf(keys: seq<int>, valueAt: int -> real): (values: seq<real>)
    ensures |values| == |keys| && forall i :: 0 <= i < |keys| ==> values[i] == valueAt(keys[i])
  {
    if keys == [] then [] else ValuesOf(keys[..|keys| - 1], valueAt) + [valueAt(keys[|keys| - 1])]
  }

  /** The message with which a server answers. */
  function Reply(u: Setup, due: Due, valueAt: int -> real): (m: Incoming)
    ensures IsReply(u.localId, m) && m.message.sendId == due.ask.id && m.message.request.value.keys == due.ask.keys
    ensures |m.message.request.value.keys| <= |m.message.request.value.values|
    ensures AnswersAsk(m.message, due.ask, valueAt)
  {
    Received(ReplyMessage(due.ask.id, S.Reply(u.localId, due.ask.keys, ValuesOf(due.ask.keys, valueAt))))
  }

  /** The replies that are owed, one message each. */
  function Replies(u: Setup, dues: seq<Due>, values: seq<int -> real>): (incoming: seq<Incoming>)
    requires forall e :: 0 <= e < |dues| ==> dues[e].pull < |values|
    ensures |incoming| == |dues|
    ensures forall e :: 0 <= e < |dues| ==> incoming[e] == Reply(u, dues[e], values[dues[e].pull])
  {
    if dues == [] then
      []
    else
      var last := dues[|dues| - 1];
      Replies(u, dues[..|dues| - 1], values) + [Reply(u, last, values[last.pull])]
  }

  function IdsFrom(dues: seq<Due>, d: nat): (ids: set<int>)
    requires d <= |dues|
    ensures forall id :: id in ids <==> exists e :: d <= e < |dues| && dues[e].ask.id == id
    decreases |dues| - d
  {
    if d == |dues| then {} else {dues[d].ask.id} + IdsFrom(dues, d + 1)
  }

  predicate DistinctSenders(dues: seq<Due>) {
    forall d, e :: 0 <= d < e < |dues| ==> dues[d].ask.id != dues[e].ask.id
  }

  lemma FirstSender(dues: seq<Due>, d: nat)
    requires d < |dues| && DistinctSenders(dues)
    ensures dues[d].ask.id in IdsFrom(dues, d) && IdsFrom(dues, d) - {dues[d].ask.id} == IdsFrom(dues, d + 1)
  {
  }

  /** One reply per awaited server ends the loop. */
  lemma {:induction false} RepliesEnd(u: Setup, dues: seq<Due>, values: seq<int -> real>, d: nat)
    requires d <= |dues| && DistinctSenders(dues) && forall e :: 0 <= e < |dues| ==> dues[e].pull < |values|
    ensures Ends(IdsFrom(dues, d), u.localId, Replies(u, dues, values), d)
    decreases |dues| - d
  {
    hide DistinctSenders, IdsFrom, Reply, Replies, Ends;
    if d == |dues| {
      NoRepliesEnd(u, dues, values);
    } else {
      RepliesEnd(u, dues, values, d + 1);
      FirstSender(dues, d);
      EndsOneEarlier(IdsFrom(dues, d), u, dues, values, d);
    }
  }

  lemma NoRepliesEnd(u: Setup, dues: seq<Due>, values: seq<int -> real>)
    requires forall e :: 0 <= e < |dues| ==> dues[e].pull < |values|
    ensures Ends(IdsFrom(dues, |dues|), u.localId, Replies(u, dues, values), |dues|)
  {
  }

  lemma EndsOneEarlier(asked: set<int>, u: Setup, dues: seq<Due>, values: seq<int -> real>, d: nat)
    requires d < |dues| && (forall e :: 0 <= e < |dues| ==> dues[e].pull < |values|) && dues[d].ask.id in asked
    requires Ends(asked - {dues[d].ask.id}, u.localId, Replies(u, dues, values), d + 1)
    ensures Ends(asked, u.localId, Replies(u, dues, values), d)
  {
    var m := Reply(u, dues[d], values[dues[d].pull]);
    assert Replies(u, dues, values)[d] == m;
  }

  lemma {:induction false} RepliesAnswered(u: Setup, dues: seq<Due>, values: seq<int -> real>, d: nat)
    requires d <= |dues| && forall e :: 0 <= e < |dues| ==> dues[e].pull < |values| && dues[e].ask.id in u.serverIds
    ensures Answered(u, Replies(u, dues, values), d, dues, d, values)
    decreases |dues| - d
  {
    hide Reply, Replies, AnswersAsk;
    if d < |dues| {
      RepliesAnswered(u, dues, values, d + 1);
    }
  }

  function PullReading(u: Setup, keys: seq<int>, dues: seq<Due>, values: seq<int -> real>): Pull
    requires forall e :: 0 <= e < |dues| ==> dues[e].pull < |values|
  {
    Pull(keys, Replies(u, dues, values), dues)
  }

  /** One request to each server that a pull asks: of the two to the last server that a pull around the
      circle makes, the first. */
  function Askers(u: Setup, keys: seq<int>): (asks: seq<Ask>)
    requires ValidSetup(u) && Pullable(u, keys)
  {
    var asks := AsksOf(u, keys);
    if Spans(u, keys) && asks != [] then asks[..|asks| - 1] else asks
  }

  predicate DistinctAsks(asks: seq<Ask>) {
    forall i, j :: 0 <= i < j < |asks| ==> asks[i].id != asks[j].id
  }

  lemma AskersAreDistinct(u: Setup, keys: seq<int>)
    requires ValidSetup(u) && Pullable(u, keys)
    ensures DistinctAsks(Askers(u, keys))
  {
    hide AsksOf, Spans;
    var asks, askers := AsksOf(u, keys), Askers(u, keys);
    forall i, j | 0 <= i < j < |askers|
      ensures askers[i].id != askers[j].id
    {
      if asks[i].id == asks[j].id {
        AskedTwiceOnlyAtEnds(u, keys, i, j);
      }
    }
  }

  lemma AskedIdsIff(asks: seq<Ask>, id: int)
    ensures id in AskedIds(asks) <==> exists i :: 0 <= i < |asks| && asks[i].id == id
  {
    AskedIdsAreAsked(asks, id);
    if id in AskedIds(asks) {
      var i := SomeAsk(asks, id);
    }
  }

  lemma AskersAreAsked(u: Setup, keys: seq<int>)
    requires ValidSetup(u) && Pullable(u, keys)
    ensures AskedIds(Askers(u, keys)) == AskedIds(AsksOf(u, keys))
  {
    if Spans(u, keys) {
      SpanningEnds(u, keys);
      EqualEnds(AsksOf(u, keys));
    }
  }

  lemma EqualEnds(asks: seq<Ask>)
    requires |asks| >= 2 && asks[0].id == asks[|asks| - 1].id
    ensures AskedIds(asks[..|asks| - 1]) == AskedIds(asks)
  {
    hide AskedIds;
    var fewer := asks[..|asks| - 1];
    forall id
      ensures id in AskedIds(fewer) <==> id in AskedIds(asks)
    {
      AskedIdsIff(fewer, id);
      AskedIdsIff(asks, id);
      assert fewer[0].id == asks[0].id;
      if i :| 0 <= i < |asks| && asks[i].id == id {
        assert fewer[if i == |asks| - 1 then 0 else i].id == id;
      }
    }
  }

  /** The reply that the i-th asked server sends first. */
  function Head(u: Setup, before: seq<Pull>, keys: seq<int>, i: nat): (head: Due)
    requires ValidSetup(u) && Pullable(u, keys) && forall k :: 0 <= k < |before| ==> Pullable(u, before[k].keys)
    requires i < |Askers(u, keys)|
    ensures head.ask.id == Askers(u, keys)[i].id
    ensures var queue := QueueDuring(u, before, keys, Askers(u, keys)[i].id);
            queue != [] && head == queue[0]
  {
    FromHas(Dues(|before|, AsksOf(u, keys)), i);
    QueueDuring(u, before, keys, Askers(u, keys)[i].id)[0]
  }

  /** The replies that the first n asked servers send first. */
  function Heads(u: Setup, before: seq<Pull>, keys: seq<int>, n: nat): (heads: seq<Due>)
    requires ValidSetup(u) && Pullable(u, keys) && forall k :: 0 <= k < |before| ==> Pullable(u, before[k].keys)
    requires n <= |Askers(u, keys)|
    ensures |heads| == n && forall i :: 0 <= i < n ==> heads[i] == Head(u, before, keys, i)
  {
    hide Askers, Pullable, ValidSetup;
    if n == 0 then [] else Heads(u, before, keys, n - 1) + [Head(u, before, keys, n - 1)]
  }

  function AllHeads(u: Setup, before: seq<Pull>, keys: seq<int>): (heads: seq<Due>)
    requires ValidSetup(u) && Pullable(u, keys) && forall k :: 0 <= k < |before| ==> Pullable(u, before[k].keys)
  {
    Heads(u, before, keys, |Askers(u, keys)|)
  }

  lemma HeadsAreDistinct(u: Setup, before: seq<Pull>, keys: seq<int>)
    requires ValidSetup(u) && Pullable(u, keys) && forall k :: 0 <= k < |before| ==> Pullable(u, before[k].keys)
    ensures DistinctSenders(AllHeads(u, before, keys))
  {
    AskersAreDistinct(u, keys);
    hide AsksOf, QueueDuring;
    var heads := AllHeads(u, before, keys);
    forall i, j | 0 <= i < j < |heads|
      ensures heads[i].ask.id != heads[j].ask.id
    {
    }
  }

  lemma HeadsAreInOrder(u: Setup, before: seq<Pull>, keys: seq<int>)
    requires ValidSetup(u) && Pullable(u, keys) && forall k :: 0 <= k < |before| ==> Pullable(u, before[k].keys)
    ensures InOrder(u, before, keys, AllHeads(u, before, keys))
  {
    HeadsAreDistinct(u, before, keys);
    hide AsksOf, QueueDuring, Askers;
    var heads := AllHeads(u, before, keys);
    forall id | id in u.serverIds
      ensures From(heads, id) <= QueueDuring(u, before, keys, id)
    {
      if i :| 0 <= i < |heads| && heads[i].ask.id == id {
        FromOnly(heads, i);
      } else {
        FromNobody(heads, id);
      }
    }
  }

  lemma HeadsAreSided(u: Setup, before: seq<Pull>, keys: seq<int>)
    requires ValidSetup(u) && Pullable(u, keys) && forall k :: 0 <= k < |before| ==> Pullable(u, before[k].keys)
    ensures forall e :: 0 <= e < |AllHeads(u, before, keys)| ==>
              var head := AllHeads(u, before, keys)[e];
              Sided(u, head.ask) && head.pull <= |before|
  {
    hide AsksOf, QueueDuring, Sided;
    var heads := AllHeads(u, before, keys);
    forall e | 0 <= e < |heads|
      ensures Sided(u, heads[e].ask) && heads[e].pull <= |before|
    {
      QueueDuringIsSided(u, before, keys, Askers(u, keys)[e].id, heads[e]);
    }
  }

  /** The replies come from exactly the asked servers. */
  lemma SendersAreAsked(dues: seq<Due>, asks: seq<Ask>)
    requires |dues| == |asks| && forall i :: 0 <= i < |asks| ==> dues[i].ask.id == asks[i].id
    ensures IdsFrom(dues, 0) == AskedIds(asks)
  {
    hide AskedIds;
    forall id
      ensures id in IdsFrom(dues, 0) <==> id in AskedIds(asks)
    {
      AskedIdsIff(asks, id);
    }
  }

  lemma HeadsAreAsked(u: Setup, before: seq<Pull>, keys: seq<int>)
    requires ValidSetup(u) && Pullable(u, keys) && forall k :: 0 <= k < |before| ==> Pullable(u, before[k].keys)
    ensures IdsFrom(AllHeads(u, before, keys), 0) == AskedIds(AsksOf(u, keys))
  {
    hide AsksOf, QueueDuring, AskedIds, IdsFrom, Askers, Pullable, ValidSetup;
    AskersAreAsked(u, keys);
    SendersAreAsked(AllHeads(u, before, keys), Askers(u, keys));
  }

  /** The pull that reads nothing beyond what it waits for: the first reply of each server it asks. */
  function ShortestPull(u: Setup, before: seq<Pull>, keys: seq<int>, values: seq<int -> real>): (p: Pull)
    requires ValidSetup(u) && Pullable(u, keys) && forall k :: 0 <= k < |before| ==> Pullable(u, before[k].keys)
    requires |before| < |values|
    ensures p.keys == keys && p.dues == AllHeads(u, before, keys)
  {
    HeadsAreSided(u, before, keys);
    PullReading(u, keys, AllHeads(u, before, keys), values)
  }

  /** A pull can always end, whatever is still owed to earlier ones. */
  lemma NextPullExists(u: Setup, before: seq<Pull>, keys: seq<int>, values: seq<int -> real>)
    requires ValidSetup(u) && Pullable(u, keys) && forall k :: 0 <= k < |before| ==> Pullable(u, before[k].keys)
    requires |before| < |values|
    ensures NextPull(u, before, ShortestPull(u, before, keys, values), values)
  {
    hide InOrder, AskedIds, AsksOf, Sided, AllHeads, Reply, IdsFrom, DistinctSenders;
    var dues := AllHeads(u, before, keys);
    HeadsAreSided(u, before, keys);
    HeadsAreDistinct(u, before, keys);
    HeadsAreInOrder(u, before, keys);
    HeadsAreAsked(u, before, keys);
    SidedAreServers(u, dues);
    RepliesAnswered(u, dues, values, 0);
    RepliesEnd(u, dues, values, 0);
  }

  lemma SidedAreServers(u: Setup, dues: seq<Due>)
    requires ValidSetup(u) && forall e :: 0 <= e < |dues| ==> Sided(u, dues[e].ask)
    ensures forall e :: 0 <= e < |dues| ==> dues[e].ask.id in u.serverIds
  {
  }

  predicate AllPullable(u: Setup, keyLists: seq<seq<int>>) {
    forall k :: 0 <= k < |keyLists| ==> Pullable(u, keyLists[k])
  }

  /** Pulls with these keys, in this order. */
  predicate PullsOf(pulls: seq<Pull>, keyLists: seq<seq<int>>) {
    |pulls| == |keyLists| && forall k :: 0 <= k < |pulls| ==> pulls[k].keys == keyLists[k]
  }

  // ---- What is left over after shortest pulls ----

  lemma {:induction false} FromAtLeastOne(dues: seq<Due>, i: nat)
    requires i < |dues|
    ensures |From(dues, dues[i].ask.id)| >= 1
  {
    FromHas(dues, i);
  }

  lemma {:induction false} FromAtLeastTwo(dues: seq<Due>, i: nat, j: nat)
    requires i < j < |dues| && dues[i].ask.id == dues[j].ask.id
    ensures |From(dues, dues[i].ask.id)| >= 2
  {
    if j == |dues| - 1 {
      FromAtLeastOne(dues[..|dues| - 1], i);
    } else {
      FromAtLeastTwo(dues[..|dues| - 1], i, j);
    }
  }

  /** A pull asks a server for more than the one reply that it waits for only if it spans the circle. */
  lemma OwnReplies(u: Setup, keys: seq<int>, k: nat)
    requires ValidSetup(u) && Pullable(u, keys)
    ensures var own := From(Dues(k, AsksOf(u, keys)), LastServer(u));
            && (AsksLast(u, keys) ==> |own| >= 1) && (Spans(u, keys) ==> |own| >= 2)
  {
    hide AsksOf, Spans, AsksLast, From;
    var asks := AsksOf(u, keys);
    AsksLastIff(u, keys);
    if AsksLast(u, keys) {
      var i :| 0 <= i < |asks| && asks[i].id == LastServer(u);
      FromAtLeastOne(Dues(k, asks), i);
    }
    if Spans(u, keys) {
      SpanningEnds(u, keys);
      FromAtLeastTwo(Dues(k, asks), 0, |asks| - 1);
    }
  }

  /** What a shortest pull reads of the last server. */
  lemma ReadsOfLast(u: Setup, before: seq<Pull>, keys: seq<int>)
    requires ValidSetup(u) && Pullable(u, keys) && forall k :: 0 <= k < |before| ==> Pullable(u, before[k].keys)
    ensures |From(AllHeads(u, before, keys), LastServer(u))| <= if AsksLast(u, keys) then 1 else 0
  {
    hide AsksOf, QueueDuring, AskedIds, AsksLast, AllHeads, Pullable, ValidSetup, LastServer;
    HeadsAreDistinct(u, before, keys);
    HeadsAreAsked(u, before, keys);
    var heads := AllHeads(u, before, keys);
    if i :| 0 <= i < |heads| && heads[i].ask.id == LastServer(u) {
      FromOnly(heads, i);
      assert LastServer(u) in IdsFrom(heads, 0);
      AskedAreServers(u, keys, LastServer(u));
    } else {
      FromNobody(heads, LastServer(u));
    }
  }

  /** A shortest pull leaves the last server at least as much to send as before, and more if it
      spans the circle. */
  lemma QueueOfLastGrows(u: Setup, before: seq<Pull>, p: Pull)
    requires ValidSetup(u) && Pullable(u, p.keys) && forall k :: 0 <= k < |before| ==> Pullable(u, before[k].keys)
    requires p.dues == AllHeads(u, before, p.keys)
    ensures var queue := Queue(u, before + [p], LastServer(u));
            |queue| >= |Queue(u, before, LastServer(u))| + if Spans(u, p.keys) then 1 else 0
  {
    hide AsksOf, AllHeads, From, Pullable, ValidSetup;
    assert (before + [p])[..|before + [p]| - 1] == before;
    OwnReplies(u, p.keys, |before|);
    ReadsOfLast(u, before, p.keys);
  }

  lemma HistoryGrows(u: Setup, before: seq<Pull>, p: Pull, values: seq<int -> real>)
    requires ValidSetup(u) && History(u, before, values) && NextPull(u, before, p, values)
    ensures History(u, before + [p], values)
  {
    assert (before + [p])[..|before + [p]| - 1] == before;
  }

  /** Any pulls can happen one after the other, each of them a shortest one. If one of them spans the circle,
      the last server still owes a reply in the end. */
  lemma {:induction false} HistoryExists(u: Setup, keyLists: seq<seq<int>>, values: seq<int -> real>) returns (pulls: seq<Pull>)
    requires ValidSetup(u) && AllPullable(u, keyLists) && |keyLists| <= |values|
    ensures History(u, pulls, values) && PullsOf(pulls, keyLists)
    ensures forall k :: 0 <= k < |keyLists| && Spans(u, keyLists[k]) ==> Queue(u, pulls, LastServer(u)) != []
  {
    hide AsksOf, Spans, NextPull, History, Queue, Pullable, ValidSetup, AllHeads;
    if keyLists == [] {
      pulls := [];
      NoPulls(u, values);
    } else {
      var n := |keyLists| - 1;
      var before := HistoryExists(u, keyLists[..n], values);
      var p := ShortestPull(u, before, keyLists[n], values);
      NextPullExists(u, before, keyLists[n], values);
      HistoryGrows(u, before, p, values);
      QueueOfLastGrows(u, before, p);
      pulls := before + [p];
    }
  }

  lemma NoPulls(u: Setup, values: seq<int -> real>)
    requires ValidSetup(u)
    ensures History(u, [], values)
  {
  }

  // ---- A reply that is left over ----

  /** A key of a pull that belongs to the last server: a wrapped one, if there is one. */
  function LastServerKey(u: Setup, keys: seq<int>): (key: int)
    requires ValidSetup(u) && AsksLast(u, keys)
    ensures key in keys && if Low(u, keys[0]) then key == keys[0] && Low(u, key) else High(u, key)
  {
    if Low(u, keys[0]) then keys[0] else keys[|keys| - 1]
  }

  /** A pair that is in no reply is not collected. */
  lemma {:induction false} NotSentNotCollected(asked: set<int>, localId: int, incoming: seq<Incoming>, from: nat, pair: (int, real))
    requires from <= |incoming| && ValuesForKeys(localId, incoming)
    requires forall at :: 0 <= at < |incoming| && IsReply(localId, incoming[at]) ==>
               pair !in Pairs(incoming[at].message.request.value.keys, incoming[at].message.request.value.values)
    ensures pair !in Gathered(asked, localId, incoming, from)
    decreases |incoming| - from
  {
    if asked != {} && from < |incoming| {
      if Accepts(asked, localId, incoming[from]) {
        NotSentNotCollected(asked - {incoming[from].message.sendId}, localId, incoming, from + 1, pair);
      } else {
        NotSentNotCollected(asked, localId, incoming, from + 1, pair);
      }
    }
  }

  /** The reply does not say that the key has this value. */
  predicate SaysOtherwise(due: Due, key: int, values: seq<int -> real>, value: real) {
    due.pull < |values| && (key !in due.ask.keys || values[due.pull](key) != value)
  }

  lemma ReplyLacksPair(u: Setup, due: Due, key: int, values: seq<int -> real>, value: real)
    requires SaysOtherwise(due, key, values, value)
    ensures var request := Reply(u, due, values[due.pull]).message.request.value;
            |request.keys| <= |request.values| && (key, value) !in Pairs(request.keys, request.values)
  {
    var m := Reply(u, due, values[due.pull]).message;
    var pairs := Pairs(m.request.value.keys, m.request.value.values);
    forall i | 0 <= i < |pairs|
      ensures pairs[i] != (key, value)
    {
      assert pairs[i].0 == due.ask.keys[i] && pairs[i].1 == values[due.pull](due.ask.keys[i]);
    }
  }

  /** A pull is incomplete if no reply gives one of its keys the right value. */
  lemma LackingIsIncomplete(u: Setup, p: Pull, values: seq<int -> real>, key: int, valueAt: int -> real)
    requires ValidSetup(u) && Pullable(u, p.keys) && key in p.keys
    requires forall e :: 0 <= e < |p.dues| ==> p.dues[e].pull < |values| && SaysOtherwise(p.dues[e], key, values, valueAt(key))
    requires p.incoming == Replies(u, p.dues, values) && ValuesForKeys(u.localId, p.incoming)
    ensures !Complete(u, p, valueAt)
  {
    hide Gathered, AsksOf, AskedIds, Complete, Reply, SaysOtherwise;
    forall at | 0 <= at < |p.incoming|
      ensures (key, valueAt(key)) !in Pairs(p.incoming[at].message.request.value.keys, p.incoming[at].message.request.value.values)
    {
      ReplyLacksPair(u, p.dues[at], key, values, valueAt(key));
    }
    NotSentNotCollected(AskedIds(AsksOf(u, p.keys)), u.localId, p.incoming, 0, (key, valueAt(key)));
    if Complete(u, p, valueAt) {
      var i :| 0 <= i < |p.keys| && p.keys[i] == key;
      CollectsAll(u, p, valueAt, i);
      assert false;
    }
  }

  lemma OthersLackLastKeys(u: Setup, ask: Ask, key: int)
    requires ValidSetup(u) && Sided(u, ask) && ask.id != LastServer(u) && (Low(u, key) || High(u, key))
    ensures key !in ask.keys
  {
  }

  lemma HeadsSayOtherwise(u: Setup, before: seq<Pull>, keys: seq<int>, key: int, values: seq<int -> real>, value: real)
    requires ValidSetup(u) && Pullable(u, keys) && forall k :: 0 <= k < |before| ==> Pullable(u, before[k].keys)
    requires |before| < |values| && (Low(u, key) || High(u, key))
    requires var queue := QueueDuring(u, before, keys, LastServer(u));
             queue != [] ==> SaysOtherwise(queue[0], key, values, value)
    ensures forall e :: 0 <= e < |AllHeads(u, before, keys)| ==> SaysOtherwise(AllHeads(u, before, keys)[e], key, values, value)
  {
    hide AsksOf, QueueDuring, Sided, Low, High, Askers;
    HeadsAreSided(u, before, keys);
    var heads := AllHeads(u, before, keys);
    forall e | 0 <= e < |heads|
      ensures SaysOtherwise(heads[e], key, values, value)
    {
      if heads[e].ask.id == LastServer(u) {
        assert heads[e] == QueueDuring(u, before, keys, LastServer(u))[0];
      } else {
        OthersLackLastKeys(u, heads[e].ask, key);
      }
    }
  }

  /** If what the last server sends first does not give a key its right value, the shortest pull is
      incomplete. */
  lemma WrongHeadIsTaken(u: Setup, before: seq<Pull>, keys: seq<int>, values: seq<int -> real>, valueAt: int -> real)
    requires ValidSetup(u) && Pullable(u, keys) && forall k :: 0 <= k < |before| ==> Pullable(u, before[k].keys)
    requires |before| < |values| && AsksLast(u, keys)
    requires var key := LastServerKey(u, keys);
             var queue := QueueDuring(u, before, keys, LastServer(u));
             queue != [] ==> SaysOtherwise(queue[0], key, values, valueAt(key))
    ensures NextPull(u, before, ShortestPull(u, before, keys, values), values)
    ensures !Complete(u, ShortestPull(u, before, keys, values), valueAt)
  {
    hide QueueDuring, SaysOtherwise, AsksOf, AllHeads, Answered, InOrder, Ends, Complete;
    NextPullExists(u, before, keys, values);
    HeadsSayOtherwise(u, before, keys, LastServerKey(u, keys), values, valueAt(LastServerKey(u, keys)));
    LackingIsIncomplete(u, ShortestPull(u, before, keys, values), values, LastServerKey(u, keys), valueAt);
  }

  /** If an earlier pull spanned the circle, a later one that asks the last server can take an old reply
      for its own, and is incomplete if the value of its key has changed since. */
  lemma StaleReplyIsTaken(u: Setup, earlier: seq<seq<int>>, keys: seq<int>, j: nat, values: seq<int -> real>)
    returns (before: seq<Pull>, p: Pull)
    requires ValidSetup(u) && AllPullable(u, earlier) && Pullable(u, keys) && |values| == |earlier| + 1
    requires AsksLast(u, keys) && j < |earlier| && Spans(u, earlier[j])
    requires var key := LastServerKey(u, keys); forall k :: 0 <= k < |earlier| ==> values[k](key) != values[|earlier|](key)
    ensures History(u, before, values) && PullsOf(before, earlier)
    ensures NextPull(u, before, p, values) && p.keys == keys && !Complete(u, p, values[|earlier|])
  {
    hide Spans, NextPull, History, Queue, Complete, AsksOf, ValidSetup, LastServerKey, From, Pullable;
    before := HistoryExists(u, earlier, values);
    QueueWasAsked(u, before, LastServer(u), Queue(u, before, LastServer(u))[0]);
    WrongHeadIsTaken(u, before, keys, values, values[|earlier|]);
    p := ShortestPull(u, before, keys, values);
  }

  lemma {:induction false} FromEnds(asks: seq<Ask>, k: nat, id: int)
    requires |asks| >= 2 && asks[0].id == id && asks[|asks| - 1].id == id
    requires forall i :: 0 < i < |asks| - 1 ==> asks[i].id != id
    ensures From(Dues(k, asks), id) == [Due(k, asks[0]), Due(k, asks[|asks| - 1])]
  {
    var dues := Dues(k, asks);
    FromOnly(dues[..|dues| - 1], 0);
  }

  /** What the last server is asked by a pull that spans the circle. */
  lemma OwnOfSpanning(u: Setup, keys: seq<int>, k: nat)
    requires ValidSetup(u) && Pullable(u, keys) && Spans(u, keys)
    ensures var asks := AsksOf(u, keys);
            |asks| >= 2 && From(Dues(k, asks), LastServer(u)) == [Due(k, asks[0]), Due(k, asks[|asks| - 1])]
  {
    hide AsksOf, Spans;
    SpanningEnds(u, keys);
    var asks := AsksOf(u, keys);
    forall i | 0 < i < |asks| - 1
      ensures asks[i].id != LastServer(u)
    {
      if asks[i].id == LastServer(u) {
        AskedTwiceOnlyAtEnds(u, keys, 0, i);
      }
    }
    FromEnds(asks, k, LastServer(u));
  }

  /** After a first pull that spans the circle, the last server still owes the reply to its last request. */
  lemma LateReplyIsNext(u: Setup, before: seq<Pull>, p: Pull, values: seq<int -> real>)
    requires ValidSetup(u) && forall k :: 0 <= k < |before| ==> Pullable(u, before[k].keys)
    requires Queue(u, before, LastServer(u)) == [] && NextPull(u, before, p, values) && Spans(u, p.keys)
    requires p.dues == AllHeads(u, before, p.keys)
    ensures var asks := AsksOf(u, p.keys);
            asks != [] && Queue(u, before + [p], LastServer(u)) == [Due(|before|, asks[|asks| - 1])]
  {
    hide AsksOf, Answered, Ends, InOrder, From, AllHeads, Spans, AskedIds, LastServer;
    assert (before + [p])[..|before + [p]| - 1] == before;
    OwnOfSpanning(u, p.keys, |before|);
    SpanningAsksLast(u, p.keys);
    ReadsOfLast(u, before, p.keys);
    ReadsFrom(u, before, p, values, LastServer(u));
  }

  lemma SpanningAsksLast(u: Setup, keys: seq<int>)
    requires ValidSetup(u) && Pullable(u, keys) && Spans(u, keys)
    ensures LastServer(u) in u.serverIds && LastServer(u) in AskedIds(AsksOf(u, keys))
  {
    hide AsksOf, Spans;
    SpanningEnds(u, keys);
  }

  /** The last request of a pull that spans the circle. */
  function LateAsk(u: Setup, spanning: seq<int>): (ask: Ask)
    requires ValidSetup(u) && Pullable(u, spanning) && Spans(u, spanning)
  {
    SpanningEnds(u, spanning);
    AsksOf(u, spanning)[|AsksOf(u, spanning)| - 1]
  }

  /** The first pull that spans the circle leaves the reply to its last request behind, and the next pull that
      asks the last server can take it for its own. If that one has a key that wrapped around, or its last key
      is not in the late reply, it misses a key, whatever the values are. */
  lemma LateReplyIsTaken(u: Setup, earlier: seq<seq<int>>, spanning: seq<int>, keys: seq<int>, values: seq<int -> real>)
    returns (before: seq<Pull>, p: Pull)
    requires ValidSetup(u) && AllPullable(u, earlier) && Pullable(u, spanning) && Pullable(u, keys)
    requires |values| == |earlier| + 2 && Spans(u, spanning) && AsksLast(u, keys)
    requires forall k :: 0 <= k < |earlier| ==> !Spans(u, earlier[k])
    requires Low(u, keys[0]) || keys[|keys| - 1] !in LateAsk(u, spanning).keys
    ensures History(u, before, values) && PullsOf(before, earlier + [spanning])
    ensures NextPull(u, before, p, values) && p.keys == keys && !Complete(u, p, values[|earlier| + 1])
  {
    hide Spans, NextPull, History, Queue, Complete, AsksOf, From, ValidSetup, Pullable, Low, LastServer, AllHeads;
    var first := HistoryExists(u, earlier, values);
    var q := ShortestPull(u, first, spanning, values);
    NextPullExists(u, first, spanning, values);
    LastIsServer(u);
    CleanUnlessSpanned(u, first, values, LastServer(u));
    LateReplyIsNext(u, first, q, values);
    HistoryGrows(u, first, q, values);
    before := first + [q];
    LateAskLacks(u, spanning, keys);
    WrongHeadIsTaken(u, before, keys, values, values[|earlier| + 1]);
    p := ShortestPull(u, before, keys, values);
  }

  lemma LastIsServer(u: Setup)
    requires ValidSetup(u)
    ensures LastServer(u) in u.serverIds
  {
  }

  lemma LateAskLacks(u: Setup, spanning: seq<int>, keys: seq<int>)
    requires ValidSetup(u) && Pullable(u, spanning) && Spans(u, spanning) && AsksLast(u, keys)
    requires Low(u, keys[0]) || keys[|keys| - 1] !in LateAsk(u, spanning).keys
    ensures LastServerKey(u, keys) !in LateAsk(u, spanning).keys
  {
    hide AsksOf, Spans;
    SpanningEnds(u, spanning);
    assert u.cuts[0] <= u.cuts[|u.cuts| - 1];
  }

  /** For instance: cuts 2 and 5 on a circle of 8 keys. After a pull of the keys 0, 3 and 6, a pull of key 7
      alone can take the late reply for key 6 and return without key 7. */
  lemma LateReplyExample(values: seq<int -> real>) returns (u: Setup, before: seq<Pull>, p: Pull)
    requires |values| == 2
    ensures u == Setup([2, 5], 8, [10, 20], 1) && ValidSetup(u)
    ensures History(u, before, values) && PullsOf(before, [[0, 3, 6]])
    ensures NextPull(u, before, p, values) && p.keys == [7] && !Complete(u, p, values[1])
  {
    hide AsksOf, NextPull, History, Complete;
    u := Setup([2, 5], 8, [10, 20], 1);
    AskEnds(u, [0, 3, 6]);
    AskKeysAreKeys(u, [0, 3, 6], |AsksOf(u, [0, 3, 6])| - 1);
    before, p := LateReplyIsTaken(u, [], [0, 3, 6], [7], values);
  }

  // ---- The exact condition ----

  /** Whatever the order in which the replies of different servers arrive, a pull for `keys` after pulls for
      `earlier` collects every requested key once with its server's value. */
  ghost predicate AlwaysComplete(u: Setup, earlier: seq<seq<int>>, keys: seq<int>, values: seq<int -> real>)
    requires ValidSetup(u) && |values| == |earlier| + 1
  {
    forall before, p :: History(u, before, values) && PullsOf(before, earlier) && NextPull(u, before, p, values) && p.keys == keys
      ==> Complete(u, p, values[|earlier|])
  }

  lemma AlwaysCompleteUnlessSpanned(u: Setup, earlier: seq<seq<int>>, keys: seq<int>, values: seq<int -> real>)
    requires ValidSetup(u) && |values| == |earlier| + 1 && !Spans(u, keys)
    requires AsksLast(u, keys) ==> forall k :: 0 <= k < |earlier| ==> !Spans(u, earlier[k])
    ensures AlwaysComplete(u, earlier, keys, values)
  {
    hide Spans, AsksLast, Complete, ValidSetup, Answered, Ends, InOrder;
    forall before, p | History(u, before, values) && PullsOf(before, earlier) && NextPull(u, before, p, values) && p.keys == keys
      ensures Complete(u, p, values[|earlier|])
    {
      CompleteUnlessSpanned(u, before, p, values);
    }
  }

  lemma SpanningIsNotComplete(u: Setup, earlier: seq<seq<int>>, keys: seq<int>, values: seq<int -> real>)
    requires ValidSetup(u) && AllPullable(u, earlier) && Pullable(u, keys) && |values| == |earlier| + 1 && Spans(u, keys)
    ensures !AlwaysComplete(u, earlier, keys, values)
  {
    hide Spans, NextPull, History, Complete, ValidSetup, AllHeads, AsksOf;
    var before := HistoryExists(u, earlier, values);
    NextPullExists(u, before, keys, values);
    SpanningIsIncomplete(u, before, ShortestPull(u, before, keys, values), values, values[|earlier|]);
  }

  /** Values that change from one pull to the next: during pull i, every key has the value i. */
  function Changing(n: nat): (values: seq<int -> real>)
    ensures |values| == n && forall i, key :: 0 <= i < n ==> values[i](key) == i as real
  {
    seq(n, i => (key: int) => i as real)
  }

  /** Every server answers every request once, in the order in which it was asked. Then a pull is complete
      for all values and in every order of arrival if and only if it does not span the circle itself and,
      in case it asks the last server, no earlier pull did. */
  lemma AlwaysCompleteIff(u: Setup, earlier: seq<seq<int>>, keys: seq<int>)
    requires ValidSetup(u) && AllPullable(u, earlier) && Pullable(u, keys)
    ensures (forall values: seq<int -> real> :: |values| == |earlier| + 1 ==> AlwaysComplete(u, earlier, keys, values))
            <==> !Spans(u, keys) && (AsksLast(u, keys) ==> forall k :: 0 <= k < |earlier| ==> !Spans(u, earlier[k]))
  {
    hide Spans, AsksLast, NextPull, History, Complete, ValidSetup, LastServerKey;
    var changing := Changing(|earlier| + 1);
    if Spans(u, keys) {
      SpanningIsNotComplete(u, earlier, keys, changing);
    } else if j :| AsksLast(u, keys) && 0 <= j < |earlier| && Spans(u, earlier[j]) {
      var before, p := StaleReplyIsTaken(u, earlier, keys, j, changing);
    } else {
      forall values: seq<int -> real> | |values| == |earlier| + 1
        ensures AlwaysComplete(u, earlier, keys, values)
      {
        AlwaysCompleteUnlessSpanned(u, earlier, keys, values);
      }
    }
  }
}
