/** What a pull sends, and what every server is asked for. */
module Pulling {
  import opened Blocks
  import opened Gathering
  import opened Messages
  import opened Partitioning
  import opened Search
  import opened Sequences

  /** The request of a pull to one server. */
  function PullMessage(localId: int, serverId: int, keys: seq<int>): Message {
    Message(RequestKind, localId, serverId, Some(Request(Key, keys, [])))
  }

  function PullMessages(localId: int, asks: seq<Ask>): seq<Message> {
    if asks == [] then
      []
    else
      [PullMessage(localId, asks[0].id, asks[0].keys)] + PullMessages(localId, asks[1..])
  }

  /** The keys in the pull messages addressed to one node, in sending order. */
  function RequestedKeys(messages: seq<Message>, id: int): seq<int> {
    if messages == [] then
      []
    else
      var m := messages[0];
      (if m.recvId == id && m.request.Some? then m.request.value.keys else []) + RequestedKeys(messages[1..], id)
  }

  /** The keys of a list that a server owns, in list order. */
  function OwnedKeys(cuts: seq<int>, range: int, keys: seq<int>, server: int): seq<int>
    requires |cuts| >= 1
  {
    if keys == [] then
      []
    else
      var last := |keys| - 1;
      OwnedKeys(cuts, range, keys[..last], server) + if GetServer(cuts, range, keys[last]) == server then [keys[last]] else []
  }

  lemma {:induction false} OwnedKeysConcat(cuts: seq<int>, range: int, a: seq<int>, b: seq<int>, server: int)
    requires |cuts| >= 1
    ensures OwnedKeys(cuts, range, a + b, server) == OwnedKeys(cuts, range, a, server) + OwnedKeys(cuts, range, b, server)
  {
    if b == [] {
      assert a + b == a;
    } else {
      OwnedKeysConcat(cuts, range, a, b[..|b| - 1], server);
      assert (a + b)[..|a + b| - 1] == a + b[..|b| - 1];
    }
  }

  lemma {:induction false} OwnedKeysUniform(cuts: seq<int>, range: int, keys: seq<int>, owner: int, server: int)
    requires |cuts| >= 1 && forall i :: 0 <= i < |keys| ==> GetServer(cuts, range, keys[i]) == owner
    ensures OwnedKeys(cuts, range, keys, server) == if owner == server then keys else []
  {
    if keys != [] {
      OwnedKeysUniform(cuts, range, keys[..|keys| - 1], owner, server);
    }
  }

  lemma {:induction false} OwnedKeysCount(cuts: seq<int>, range: int, keys: seq<int>, server: int, key: int)
    requires |cuts| >= 1
    ensures multiset(OwnedKeys(cuts, range, keys, server))[key]
            == if GetServer(cuts, range, key) == server then multiset(keys)[key] else 0
  {
    if keys != [] {
      OwnedKeysCount(cuts, range, keys[..|keys| - 1], server, key);
      assert keys == keys[..|keys| - 1] + [keys[|keys| - 1]];
    }
  }

  /** Blocks that tile a list of keys carry to every server exactly the keys that it owns. */
  lemma {:induction false} DeliveredKeysAreOwned(cuts: seq<int>, range: int, keys: seq<int>, blocks: seq<KeyBlock>,
                                                 start: nat, server: int)
    requires |cuts| >= 1 && start <= |keys| && Tiles(blocks, start, |keys|)
    requires forall i :: 0 <= i < |blocks| ==> SingleOwner(cuts, range, keys, blocks[i])
    ensures Delivered(blocks, keys, server) == OwnedKeys(cuts, range, keys[start..], server)
  {
    hide GetServer;
    if blocks != [] {
      var b := blocks[0];
      DeliveredKeysAreOwned(cuts, range, keys, blocks[1..], b.to, server);
      OwnedKeysUniform(cuts, range, keys[start..b.to], b.server, server);
      OwnedKeysConcat(cuts, range, keys[start..b.to], keys[b.to..], server);
      SplitSuffix(keys, start, b.to);
    }
  }

  /** The messages of a pull ask each server for exactly its blocks. */
  lemma {:induction false} PullMessagesCarryBlocks(localId: int, serverIds: seq<int>, blocks: seq<KeyBlock>, keys: seq<int>,
                                                   server: int)
    requires 0 <= server < |serverIds| && DistinctElements(serverIds) && Fits(blocks, |keys|, |serverIds|)
    ensures RequestedKeys(PullMessages(localId, Asks(serverIds, blocks, keys)), serverIds[server])
            == Delivered(blocks, keys, server)
  {
    if blocks != [] {
      PullMessagesCarryBlocks(localId, serverIds, blocks[1..], keys, server);
      var asks, rest := Asks(serverIds, blocks, keys), Asks(serverIds, blocks[1..], keys);
      assert asks[1..] == rest;
      assert PullMessages(localId, asks)[1..] == PullMessages(localId, rest);
    }
  }

  /** A request of agent `localId` for keys. */
  predicate IsPullRequest(m: Message, localId: int) {
    m.kind == RequestKind && m.sendId == localId && m.request.Some? && m.request.value.requestType == Key
  }

  lemma {:induction false} PullMessagesAreRequests(localId: int, asks: seq<Ask>)
    ensures |PullMessages(localId, asks)| == |asks|
    ensures forall i :: 0 <= i < |asks| ==> IsPullRequest(PullMessages(localId, asks)[i], localId)
  {
    if asks != [] {
      PullMessagesAreRequests(localId, asks[1..]);
    }
  }

  /** Everything that a pull sends is a request for keys, and every server is asked, in list order, for exactly
      the keys that it owns, each as often as it is wanted. */
  lemma PullAsksOwners(cuts: seq<int>, range: int, serverIds: seq<int>, localId: int, keys: seq<int>, server: int)
    requires ValidCuts(cuts, range) && Sorted(keys) && InRange(keys, range)
    requires |serverIds| == |cuts| && DistinctElements(serverIds) && 0 <= server < |serverIds|
    ensures var messages := PullMessages(localId, PullAsks(cuts, range, serverIds, keys));
            && (forall i :: 0 <= i < |messages| ==> IsPullRequest(messages[i], localId))
            && RequestedKeys(messages, serverIds[server]) == OwnedKeys(cuts, range, keys, server)
            && forall key :: multiset(RequestedKeys(messages, serverIds[server]))[key]
                             == if GetServer(cuts, range, key) == server then multiset(keys)[key] else 0
  {
    hide IsPullRequest, PullMessages, RequestedKeys, OwnedKeys, Split, GetServer;
    var blocks := Split(cuts, range, keys, 0);
    SplitTiles(cuts, range, keys, 0);
    PullMessagesAreRequests(localId, PullAsks(cuts, range, serverIds, keys));
    PullMessagesCarryBlocks(localId, serverIds, blocks, keys, server);
    DeliveredKeysAreOwned(cuts, range, keys, blocks, 0, server);
    SplitSuffix(keys, 0, 0);
    forall key
      ensures multiset(OwnedKeys(cuts, range, keys, server))[key]
              == if GetServer(cuts, range, key) == server then multiset(keys)[key] else 0
    {
      OwnedKeysCount(cuts, range, keys, server, key);
    }
  }
}
