/** What a pull asks for and what it collects, for every order in which replies arrive. */
module Gathering {
  import opened Blocks
  import opened Messages
  import opened Partitioning
  import opened Search
  import opened Sequences

  /** A reply in the form that the agent looks at. */
  predicate IsReply(localId: int, incoming: Incoming) {
    && incoming.Received?
    && incoming.message.kind == RequestKind
    && incoming.message.request.Some?
    && incoming.message.recvId == localId
    && incoming.message.request.value.requestType == KeyValue
  }

  predicate Accepts(asked: set<int>, localId: int, incoming: Incoming) {
    IsReply(localId, incoming) && incoming.message.sendId in asked
  }

  predicate ValuesForKeys(localId: int, incoming: seq<Incoming>) {
    forall p :: 0 <= p < |incoming| && IsReply(localId, incoming[p]) ==>
      |incoming[p].message.request.value.keys| <= |incoming[p].message.request.value.values|
  }

  /** The pairs collected from incoming[from..] while the servers in `asked` are awaited. */
  function Gathered(asked: set<int>, localId: int, incoming: seq<Incoming>, from: nat): KeyValueList
    requires from <= |incoming| && ValuesForKeys(localId, incoming)
    decreases |incoming| - from
  {
    if asked == {} || from == |incoming| then
      []
    else if Accepts(asked, localId, incoming[from]) then
      var m := incoming[from].message;
      Pairs(m.request.value.keys, m.request.value.values) + Gathered(asked - {m.sendId}, localId, incoming, from + 1)
    else
      Gathered(asked, localId, incoming, from + 1)
  }

  /** Server `id` replies somewhere in incoming[from..]. */
  predicate Answers(id: int, localId: int, incoming: seq<Incoming>, from: nat)
    requires from <= |incoming|
    decreases |incoming| - from
  {
    from < |incoming| &&
    ((IsReply(localId, incoming[from]) && incoming[from].message.sendId == id) || Answers(id, localId, incoming, from + 1))
  }

  /** A pull request: the node it is sent to and the keys it asks for. */
  datatype Ask = Ask(id: int, keys: seq<int>)

  function Asks(serverIds: seq<int>, blocks: seq<KeyBlock>, keys: seq<int>): (asks: seq<Ask>)
    requires Fits(blocks, |keys|, |serverIds|)
    ensures |asks| == |blocks|
    ensures forall i :: 0 <= i < |blocks| ==> asks[i] == Ask(serverIds[blocks[i].server], keys[blocks[i].from..blocks[i].to])
  {
    if blocks == [] then
      []
    else
      [Ask(serverIds[blocks[0].server], keys[blocks[0].from..blocks[0].to])] + Asks(serverIds, blocks[1..], keys)
  }

  /** The pairs that answer a list of keys. */
  function WithValues(keys: seq<int>, valueAt: int -> real): (pairs: KeyValueList)
    ensures |pairs| == |keys|
    ensures forall i :: 0 <= i < |keys| ==> pairs[i] == (keys[i], valueAt(keys[i]))
  {
    if keys == [] then [] else [(keys[0], valueAt(keys[0]))] + WithValues(keys[1..], valueAt)
  }

  predicate AnswersAsk(m: Message, ask: Ask, valueAt: int -> real)
    requires m.request.Some?
  {
    && m.sendId == ask.id
    && m.request.value.keys == ask.keys
    && |m.request.value.values| == |ask.keys|
    && forall i :: 0 <= i < |ask.keys| ==> m.request.value.values[i] == valueAt(ask.keys[i])
  }

  /** Every reply from an asked server answers some request made to it. */
  predicate Honest(asks: seq<Ask>, localId: int, incoming: seq<Incoming>, valueAt: int -> real) {
    forall p :: 0 <= p < |incoming| && IsReply(localId, incoming[p]) && incoming[p].message.sendId in AskedIds(asks) ==>
      exists j :: 0 <= j < |asks| && AnswersAsk(incoming[p].message, asks[j], valueAt)
  }

  function AskedIds(asks: seq<Ask>): (ids: set<int>)
    ensures forall j :: 0 <= j < |asks| ==> asks[j].id in ids
  {
    if asks == [] then {} else {asks[0].id} + AskedIds(asks[1..])
  }

  /** Everything asked of the nodes in `ids`, answered. */
  function AskedPairs(asks: seq<Ask>, ids: set<int>, valueAt: int -> real): multiset<(int, real)> {
    if asks == [] then
      multiset{}
    else
      (if asks[0].id in ids then multiset(WithValues(asks[0].keys, valueAt)) else multiset{})
      + AskedPairs(asks[1..], ids, valueAt)
  }

  lemma {:induction false} AskedPairsSplit(asks: seq<Ask>, ids: set<int>, id: int, valueAt: int -> real)
    requires id in ids
    ensures AskedPairs(asks, ids, valueAt)
            == AskedPairs(asks, {id}, valueAt) + AskedPairs(asks, ids - {id}, valueAt)
  {
    if asks != [] {
      AskedPairsSplit(asks[1..], ids, id, valueAt);
    }
  }

  lemma {:induction false} NothingAsked(asks: seq<Ask>, ids: set<int>, valueAt: int -> real)
    requires forall j :: 0 <= j < |asks| ==> asks[j].id !in ids
    ensures AskedPairs(asks, ids, valueAt) == multiset{}
  {
    if asks != [] {
      NothingAsked(asks[1..], ids, valueAt);
    }
  }

  function AskCount(asks: seq<Ask>, id: int): nat {
    if asks == [] then 0 else (if asks[0].id == id then 1 else 0) + AskCount(asks[1..], id)
  }

  lemma {:induction false} AskIsPart(asks: seq<Ask>, j: nat, valueAt: int -> real)
    requires j < |asks|
    ensures multiset(WithValues(asks[j].keys, valueAt)) <= AskedPairs(asks, {asks[j].id}, valueAt)
  {
    if j > 0 {
      AskIsPart(asks[1..], j - 1, valueAt);
    }
  }

  lemma {:induction false} NotAsked(asks: seq<Ask>, id: int, valueAt: int -> real)
    requires AskCount(asks, id) == 0
    ensures AskedPairs(asks, {id}, valueAt) == multiset{}
  {
    if asks != [] {
      NotAsked(asks[1..], id, valueAt);
    }
  }

  /** A single request to a node is everything that was asked of it. */
  lemma {:induction false} OnlyAsk(asks: seq<Ask>, j: nat, valueAt: int -> real)
    requires j < |asks| && AskCount(asks, asks[j].id) == 1
    ensures AskedPairs(asks, {asks[j].id}, valueAt) == multiset(WithValues(asks[j].keys, valueAt))
  {
    if j == 0 {
      NotAsked(asks[1..], asks[0].id, valueAt);
    } else {
      AskCounts(asks[1..], j - 1);
      OnlyAsk(asks[1..], j - 1, valueAt);
    }
  }

  lemma {:induction false} SomeAsk(asks: seq<Ask>, id: int) returns (j: nat)
    requires AskCount(asks, id) >= 1
    ensures j < |asks| && asks[j].id == id
  {
    if asks[0].id == id {
      j := 0;
    } else {
      j := SomeAsk(asks[1..], id);
      j := j + 1;
    }
  }

  /** Of several requests to a node, one is only part of what was asked. */
  lemma {:induction false} OneOfMoreAsks(asks: seq<Ask>, j: nat, valueAt: int -> real)
    requires j < |asks| && AskCount(asks, asks[j].id) >= 2
    requires forall i :: 0 <= i < |asks| ==> asks[i].keys != []
    ensures |asks[j].keys| < |AskedPairs(asks, {asks[j].id}, valueAt)|
  {
    var id := asks[j].id;
    if j == 0 {
      var i := SomeAsk(asks[1..], id);
      AskIsPart(asks[1..], i, valueAt);
      var other := multiset(WithValues(asks[1..][i].keys, valueAt));
      assert |other| == |asks[i + 1].keys| > 0;
      SubsetIsSmaller(other, AskedPairs(asks[1..], {id}, valueAt));
    } else if asks[0].id == id {
      AskIsPart(asks[1..], j - 1, valueAt);
      SubsetIsSmaller(multiset(WithValues(asks[j].keys, valueAt)), AskedPairs(asks[1..], {id}, valueAt));
    } else {
      OneOfMoreAsks(asks[1..], j - 1, valueAt);
    }
  }

  lemma SubsetIsSmaller<T>(a: multiset<T>, b: multiset<T>)
    requires a <= b
    ensures |a| <= |b|
  {
    assert b == a + (b - a);
  }

  lemma {:induction false} PairsAreAnswers(keys: seq<int>, values: seq<real>, valueAt: int -> real)
    requires |values| == |keys| && forall i :: 0 <= i < |keys| ==> values[i] == valueAt(keys[i])
    ensures Pairs(keys, values) == WithValues(keys, valueAt)
  {
  }

  /** If no awaited server was asked twice, and what an asked server sends answers a request of this
      pull, the pull collects exactly what it asked for, in whatever order the replies come and
      whatever is ignored between them. */
  lemma {:induction false} GathersAll(asks: seq<Ask>, asked: set<int>, localId: int, incoming: seq<Incoming>,
                                      from: nat, valueAt: int -> real)
    requires from <= |incoming| && ValuesForKeys(localId, incoming)
    requires Honest(asks, localId, incoming, valueAt) && asked <= AskedIds(asks)
    requires forall id :: id in asked ==> AskCount(asks, id) == 1 && Answers(id, localId, incoming, from)
    ensures multiset(Gathered(asked, localId, incoming, from)) == AskedPairs(asks, asked, valueAt)
    decreases |incoming| - from
  {
    forall id | from == |incoming|
      ensures id !in asked
    {
      assert id in asked ==> !Answers(id, localId, incoming, from);
    }
    if asked == {} {
      NothingAsked(asks, asked, valueAt);
    } else {
      if Accepts(asked, localId, incoming[from]) {
        var m := incoming[from].message;
        var j :| 0 <= j < |asks| && AnswersAsk(m, asks[j], valueAt);
        PairsAreAnswers(m.request.value.keys, m.request.value.values, valueAt);
        OnlyAsk(asks, j, valueAt);
        AskedPairsSplit(asks, asked, m.sendId, valueAt);
        GathersAll(asks, asked - {m.sendId}, localId, incoming, from + 1, valueAt);
      } else {
        GathersAll(asks, asked, localId, incoming, from + 1, valueAt);
      }
    }
  }

  /** One reply brings at most what was asked of its sender, and less if that was asked twice. */
  lemma ReplyIsPart(asks: seq<Ask>, asked: set<int>, m: Message, valueAt: int -> real)
    requires m.request.Some? && m.sendId in asked
    requires forall i :: 0 <= i < |asks| ==> asks[i].keys != []
    requires exists j :: 0 <= j < |asks| && AnswersAsk(m, asks[j], valueAt)
    ensures var missing := |AskedPairs(asks, asked, valueAt)| - |AskedPairs(asks, asked - {m.sendId}, valueAt)|;
            && |m.request.value.keys| <= missing
            && (AskCount(asks, m.sendId) >= 2 ==> |m.request.value.keys| < missing)
  {
    var j :| 0 <= j < |asks| && AnswersAsk(m, asks[j], valueAt);
    AskIsPart(asks, j, valueAt);
    SubsetIsSmaller(multiset(WithValues(asks[j].keys, valueAt)), AskedPairs(asks, {m.sendId}, valueAt));
    if AskCount(asks, m.sendId) >= 2 {
      OneOfMoreAsks(asks, j, valueAt);
    }
    AskedPairsSplit(asks, asked, m.sendId, valueAt);
  }

  predicate SomeAskedTwice(asks: seq<Ask>, asked: set<int>) {
    exists id :: id in asked && AskCount(asks, id) >= 2
  }

  lemma TwiceAskedIsNotEmpty(asks: seq<Ask>, asked: set<int>, valueAt: int -> real)
    requires SomeAskedTwice(asks, asked)
    requires forall i :: 0 <= i < |asks| ==> asks[i].keys != []
    ensures |AskedPairs(asks, asked, valueAt)| > 0
  {
    var id :| id in asked && AskCount(asks, id) >= 2;
    AskedPairsSplit(asks, asked, id, valueAt);
    var j := SomeAsk(asks, id);
    OneOfMoreAsks(asks, j, valueAt);
  }

  /** If some awaited server was asked twice, the pull ends with too few pairs. */
  lemma {:induction false} GathersLess(asks: seq<Ask>, asked: set<int>, localId: int, incoming: seq<Incoming>,
                                       from: nat, valueAt: int -> real)
    requires from <= |incoming| && ValuesForKeys(localId, incoming)
    requires Honest(asks, localId, incoming, valueAt) && asked <= AskedIds(asks)
    requires forall i :: 0 <= i < |asks| ==> asks[i].keys != []
    ensures |Gathered(asked, localId, incoming, from)| <= |AskedPairs(asks, asked, valueAt)|
    ensures SomeAskedTwice(asks, asked) ==>
              |Gathered(asked, localId, incoming, from)| < |AskedPairs(asks, asked, valueAt)|
    decreases |incoming| - from
  {
    hide AskedPairs, AskCount, AnswersAsk;
    if SomeAskedTwice(asks, asked) {
      TwiceAskedIsNotEmpty(asks, asked, valueAt);
    }
    if from < |incoming| && asked != {} {
      if Accepts(asked, localId, incoming[from]) {
        var id := incoming[from].message.sendId;
        ReplyIsPart(asks, asked, incoming[from].message, valueAt);
        GathersLess(asks, asked - {id}, localId, incoming, from + 1, valueAt);
        assert forall other :: other in asked ==> other == id || other in asked - {id};
      } else {
        GathersLess(asks, asked, localId, incoming, from + 1, valueAt);
      }
    }
  }

  lemma AskedPairsFirst(ask: Ask, rest: seq<Ask>, ids: set<int>, valueAt: int -> real)
    requires ask.id in ids
    ensures AskedPairs([ask] + rest, ids, valueAt)
            == multiset(WithValues(ask.keys, valueAt)) + AskedPairs(rest, ids, valueAt)
  {
    assert ([ask] + rest)[1..] == rest;
  }

  lemma WithValuesConcat(a: seq<int>, b: seq<int>, valueAt: int -> real)
    ensures WithValues(a + b, valueAt) == WithValues(a, valueAt) + WithValues(b, valueAt)
  {
  }

  lemma {:induction false} BlocksAskForAll(serverIds: seq<int>, blocks: seq<KeyBlock>, keys: seq<int>, start: nat,
                                           ids: set<int>, valueAt: int -> real)
    requires start <= |keys| && Tiles(blocks, start, |keys|)
    requires forall i :: 0 <= i < |blocks| ==> 0 <= blocks[i].server < |serverIds| && serverIds[blocks[i].server] in ids
    ensures AskedPairs(Asks(serverIds, blocks, keys), ids, valueAt) == multiset(WithValues(keys[start..], valueAt))
  {
    hide WithValues;
    if blocks != [] {
      var end := blocks[0].to;
      BlocksAskForAll(serverIds, blocks[1..], keys, end, ids, valueAt);
      AskedPairsFirst(Ask(serverIds[blocks[0].server], keys[start..end]), Asks(serverIds, blocks[1..], keys), ids, valueAt);
      WithValuesConcat(keys[start..end], keys[end..], valueAt);
      SplitSuffix(keys, start, end);
    }
  }

  lemma {:induction false} NotAmongAsks(asks: seq<Ask>, id: int)
    requires forall i :: 0 <= i < |asks| ==> asks[i].id != id
    ensures AskCount(asks, id) == 0
  {
    if asks != [] {
      NotAmongAsks(asks[1..], id);
    }
  }

  lemma {:induction false} AskedAtMostOnce(asks: seq<Ask>, id: int)
    requires forall i, j :: 0 <= i < j < |asks| ==> asks[i].id != asks[j].id
    ensures AskCount(asks, id) <= 1
  {
    if asks != [] {
      NotAmongAsks(asks[1..], asks[0].id);
      AskedAtMostOnce(asks[1..], id);
    }
  }

  lemma {:induction false} AskCounts(asks: seq<Ask>, j: nat)
    requires j < |asks|
    ensures AskCount(asks, asks[j].id) >= 1
  {
    if j > 0 {
      AskCounts(asks[1..], j - 1);
    }
  }

  lemma {:induction false} AskedTwice(asks: seq<Ask>, i: nat, j: nat)
    requires i < j < |asks| && asks[i].id == asks[j].id
    ensures AskCount(asks, asks[i].id) >= 2
  {
    if i > 0 {
      AskedTwice(asks[1..], i - 1, j - 1);
    } else {
      AskCounts(asks[1..], j - 1);
    }
  }

  lemma {:induction false} AskedIdsAreAsked(asks: seq<Ask>, id: int)
    ensures id in AskedIds(asks) <==> AskCount(asks, id) >= 1
  {
    if asks != [] {
      AskedIdsAreAsked(asks[1..], id);
    }
  }

  /** The requests of a pull for these sorted keys. */
  function PullAsks(cuts: seq<int>, range: int, serverIds: seq<int>, keys: seq<int>): seq<Ask>
    requires ValidCuts(cuts, range) && Sorted(keys) && InRange(keys, range) && |serverIds| == |cuts|
  {
    SplitTiles(cuts, range, keys, 0);
    Asks(serverIds, Split(cuts, range, keys, 0), keys)
  }

  lemma TilingAsksForAll(serverIds: seq<int>, blocks: seq<KeyBlock>, keys: seq<int>, valueAt: int -> real)
    requires Tiles(blocks, 0, |keys|)
    requires forall i :: 0 <= i < |blocks| ==> 0 <= blocks[i].server < |serverIds|
    ensures var asks := Asks(serverIds, blocks, keys);
            AskedPairs(asks, AskedIds(asks), valueAt) == multiset(WithValues(keys, valueAt))
  {
    SplitSuffix(keys, 0, 0);
    BlocksAskForAll(serverIds, blocks, keys, 0, AskedIds(Asks(serverIds, blocks, keys)), valueAt);
  }

  lemma AsksAreNotEmpty(serverIds: seq<int>, blocks: seq<KeyBlock>, keys: seq<int>)
    requires Tiles(blocks, 0, |keys|)
    requires forall i :: 0 <= i < |blocks| ==> 0 <= blocks[i].server < |serverIds|
    ensures forall i :: 0 <= i < |blocks| ==> Asks(serverIds, blocks, keys)[i].keys != []
  {
  }

  lemma AskedTwiceIff(serverIds: seq<int>, blocks: seq<KeyBlock>, keys: seq<int>)
    requires Fits(blocks, |keys|, |serverIds|)
    requires DistinctElements(serverIds)
    ensures var asks := Asks(serverIds, blocks, keys);
            SomeAskedTwice(asks, AskedIds(asks)) <==> SomeServerTwice(blocks)
  {
    var asks := Asks(serverIds, blocks, keys);
    if SomeServerTwice(blocks) {
      var i, j :| 0 <= i < j < |blocks| && blocks[i].server == blocks[j].server;
      AskedTwice(asks, i, j);
      assert asks[i].id in AskedIds(asks);
    } else {
      forall id | id in AskedIds(asks)
        ensures AskCount(asks, id) <= 1
      {
        AskedAtMostOnce(asks, id);
      }
    }
  }

  /** What is gathered is all that was asked for exactly when nobody was asked twice. */
  lemma GatheringIsCompleteIff(asks: seq<Ask>, localId: int, incoming: seq<Incoming>, valueAt: int -> real)
    requires ValuesForKeys(localId, incoming) && Honest(asks, localId, incoming, valueAt)
    requires forall i :: 0 <= i < |asks| ==> asks[i].keys != []
    requires forall id :: id in AskedIds(asks) ==> Answers(id, localId, incoming, 0)
    ensures multiset(Gathered(AskedIds(asks), localId, incoming, 0)) == AskedPairs(asks, AskedIds(asks), valueAt)
            <==> !SomeAskedTwice(asks, AskedIds(asks))
  {
    hide Gathered, AskedPairs, Honest, Answers, AskedIds, AskCount;
    var asked := AskedIds(asks);
    if SomeAskedTwice(asks, asked) {
      GathersLess(asks, asked, localId, incoming, 0, valueAt);
      assert |multiset(Gathered(asked, localId, incoming, 0))| < |AskedPairs(asks, asked, valueAt)|;
    } else {
      forall id | id in asked
        ensures AskCount(asks, id) == 1
      {
        AskedIdsAreAsked(asks, id);
      }
      GathersAll(asks, asked, localId, incoming, 0, valueAt);
    }
  }

  /** The requests of a pull ask for all keys, none of them for nothing, and for some server twice
      exactly when the keys span the whole circle. */
  lemma PullAskFacts(cuts: seq<int>, range: int, serverIds: seq<int>, keys: seq<int>, valueAt: int -> real)
    requires ValidCuts(cuts, range) && Sorted(keys) && InRange(keys, range) && keys != []
    requires |serverIds| == |cuts| && DistinctElements(serverIds)
    ensures var asks := PullAsks(cuts, range, serverIds, keys);
            && AskedPairs(asks, AskedIds(asks), valueAt) == multiset(WithValues(keys, valueAt))
            && (forall i :: 0 <= i < |asks| ==> asks[i].keys != [])
            && (SomeAskedTwice(asks, AskedIds(asks)) <==> keys[0] < cuts[0] && cuts[|cuts| - 1] <= keys[|keys| - 1])
  {
    hide AskedPairs, AskedIds, SomeAskedTwice, SomeServerTwice, Split, ValidCuts, WithValues;
    var blocks := Split(cuts, range, keys, 0);
    SplitTiles(cuts, range, keys, 0);
    TilingAsksForAll(serverIds, blocks, keys, valueAt);
    AsksAreNotEmpty(serverIds, blocks, keys);
    AskedTwiceIff(serverIds, blocks, keys);
    ServerTwiceIff(cuts, range, keys);
  }

  /** With no reply to an earlier pull left in the receiver, a pull collects every requested pair exactly
      once if and only if its keys do not span the whole circle, that is, unless some key wrapped
      around and some key lies past the last cut. */
  lemma PullIsCompleteIff(cuts: seq<int>, range: int, serverIds: seq<int>, keys: seq<int>,
                          localId: int, incoming: seq<Incoming>, valueAt: int -> real)
    requires ValidCuts(cuts, range) && Sorted(keys) && InRange(keys, range) && keys != []
    requires |serverIds| == |cuts| && DistinctElements(serverIds)
    requires ValuesForKeys(localId, incoming)
    requires var asks := PullAsks(cuts, range, serverIds, keys);
             && Honest(asks, localId, incoming, valueAt)
             && forall id :: id in AskedIds(asks) ==> Answers(id, localId, incoming, 0)
    ensures var asked := AskedIds(PullAsks(cuts, range, serverIds, keys));
            multiset(Gathered(asked, localId, incoming, 0)) == multiset(WithValues(keys, valueAt))
            <==> !(keys[0] < cuts[0] && cuts[|cuts| - 1] <= keys[|keys| - 1])
  {
    hide Gathered, AskedPairs, Honest, Answers, AskedIds, SomeAskedTwice, PullAsks, ValidCuts, WithValues, Sorted, InRange;
    PullAskFacts(cuts, range, serverIds, keys, valueAt);
    GatheringIsCompleteIff(PullAsks(cuts, range, serverIds, keys), localId, incoming, valueAt);
  }
}
