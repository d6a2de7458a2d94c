/** Agents and servers understand each other: what one side sends is what the other takes it for. */
module Dispatching {
  import opened Blocks
  import opened Gathering
  import opened KeySorting
  import opened Messages
  import opened Partitioning
  import opened Pulling
  import opened Pushing
  import opened Search
  import opened Sequences
  import opened ServerMessages
  import S = ServerState

  predicate AllReadable(messages: seq<Message>) {
    forall i :: 0 <= i < |messages| ==> Readable(messages[i])
  }

  // ---- Pushes ----

  /** One push by agent `localId` for each block of a server. */
  function PushEvents(localId: int, blocks: seq<KeyBlock>, pairs: KeyValueList, server: int): (handlings: seq<Handling>)
    requires forall i :: 0 <= i < |blocks| ==> blocks[i].from <= blocks[i].to <= |pairs|
    ensures forall i :: 0 <= i < |handlings| ==>
              handlings[i].Serve? && handlings[i].event.Push? && handlings[i].event.sender == localId
  {
    if blocks == [] then
      []
    else
      var b := blocks[0];
      (if b.server == server then [Serve(S.Push(localId, pairs[b.from..b.to]))] else [])
      + PushEvents(localId, blocks[1..], pairs, server)
  }

  lemma {:induction false} PushMessagesAreDispatched(servers: set<int>, localId: int, serverIds: seq<int>, blocks: seq<KeyBlock>,
                                                     keys: seq<int>, values: seq<real>, server: int)
    requires localId !in servers && 0 <= server < |serverIds| && DistinctElements(serverIds)
    requires |values| == |keys| && Fits(blocks, |keys|, |serverIds|)
    ensures AllReadable(PushMessages(localId, serverIds, blocks, keys, values))
    ensures HandledBy(servers, PushMessages(localId, serverIds, blocks, keys, values), serverIds[server])
            == PushEvents(localId, blocks, Pairs(keys, values), server)
  {
    if blocks != [] {
      var b := blocks[0];
      PairsOfSlice(keys, values, b.from, b.to);
      PushMessagesAreDispatched(servers, localId, serverIds, blocks[1..], keys, values, server);
      var messages, rest := PushMessages(localId, serverIds, blocks, keys, values),
                            PushMessages(localId, serverIds, blocks[1..], keys, values);
      assert messages[1..] == rest;
      assert forall i :: 1 <= i < |messages| ==> messages[i] == rest[i - 1];
    }
  }

  /** The pairs in some pushes, one push after the other. */
  function PushedPairs(handlings: seq<Handling>): KeyValueList {
    if handlings == [] then
      []
    else
      (if handlings[0].Serve? && handlings[0].event.Push? then handlings[0].event.update else []) + PushedPairs(handlings[1..])
  }

  lemma {:induction false} PushEventsCarryBlocks(localId: int, blocks: seq<KeyBlock>, pairs: KeyValueList, server: int)
    requires forall i :: 0 <= i < |blocks| ==> blocks[i].from <= blocks[i].to <= |pairs|
    ensures PushedPairs(PushEvents(localId, blocks, pairs, server)) == Delivered(blocks, pairs, server)
  {
    if blocks != [] {
      PushEventsCarryBlocks(localId, blocks[1..], pairs, server);
      var b, rest := blocks[0], PushEvents(localId, blocks[1..], pairs, server);
      if b.server == server {
        assert ([Serve(S.Push(localId, pairs[b.from..b.to]))] + rest)[1..] == rest;
      } else {
        assert [] + rest == rest;
      }
    }
  }

  /** Every server takes all that a push sends it for pushes of this agent, and they contain exactly the sorted
      pairs that it owns. */
  lemma PushIsServedAsPush(servers: set<int>, localId: int, serverIds: seq<int>, cuts: seq<int>, range: int,
                           pairs: KeyValueList, keys: seq<int>, values: seq<real>, server: int)
    requires Pushable(cuts, range, pairs) && |values| == |keys| && Pairs(keys, values) == SortedPairs(pairs)
    requires localId !in servers && |serverIds| == |cuts| && 0 <= server < |serverIds| && DistinctElements(serverIds)
    ensures var messages := PushMessages(localId, serverIds, PushBlocks(cuts, range, pairs), keys, values);
            && AllReadable(messages)
            && var handlings := HandledBy(servers, messages, serverIds[server]);
               && (forall i :: 0 <= i < |handlings| ==>
                     handlings[i].Serve? && handlings[i].event.Push? && handlings[i].event.sender == localId)
               && PushedPairs(handlings) == Owned(cuts, range, SortedPairs(pairs), server)
  {
    hide SortedPairs, PushMessages, HandledBy, PushEvents, Owned, Delivered;
    var blocks := PushBlocks(cuts, range, pairs);
    PushMessagesAreDispatched(servers, localId, serverIds, blocks, keys, values, server);
    PushEventsCarryBlocks(localId, blocks, SortedPairs(pairs), server);
    EventsArePushes(localId, blocks, SortedPairs(pairs), server);
    SentIsOwned(cuts, range, pairs, server);
  }

  lemma EventsArePushes(localId: int, blocks: seq<KeyBlock>, pairs: KeyValueList, server: int)
    requires forall i :: 0 <= i < |blocks| ==> blocks[i].from <= blocks[i].to <= |pairs|
    ensures var handlings := PushEvents(localId, blocks, pairs, server);
            forall i :: 0 <= i < |handlings| ==>
              handlings[i].Serve? && handlings[i].event.Push? && handlings[i].event.sender == localId
  {
  }

  // ---- Pulls ----

  /** One pull by agent `localId` for each request to a server. */
  function PullEvents(localId: int, asks: seq<Ask>, id: int): (handlings: seq<Handling>) {
    if asks == [] then
      []
    else
      (if asks[0].id == id then [Serve(S.Pull(localId, asks[0].keys))] else []) + PullEvents(localId, asks[1..], id)
  }

  /** Every server takes each request of a pull for a pull of this agent, for the keys that it asks for. */
  lemma {:induction false} PullIsServedAsPull(servers: set<int>, localId: int, asks: seq<Ask>, id: int)
    requires localId !in servers
    ensures AllReadable(PullMessages(localId, asks))
    ensures HandledBy(servers, PullMessages(localId, asks), id) == PullEvents(localId, asks, id)
  {
    if asks != [] {
      PullIsServedAsPull(servers, localId, asks[1..], id);
      var messages, rest := PullMessages(localId, asks), PullMessages(localId, asks[1..]);
      assert messages[1..] == rest;
      assert forall i :: 1 <= i < |messages| ==> messages[i] == rest[i - 1];
    }
  }

  // ---- Replies ----

  /** While it waits for some servers, an agent takes exactly the messages with which these answer its own
      pulls: messages of another kind or type, to another agent, from another sender or without a content
      are left alone. */
  lemma AcceptsRepliesOnly(asked: set<int>, localId: int, m: Message)
    ensures Accepts(asked, localId, Received(m))
            <==> m.sendId in asked && m.request.Some?
                 && m == ReplyMessage(m.sendId, S.Reply(localId, m.request.value.keys, m.request.value.values))
    ensures Accepts(asked, localId, Received(m))
            <==> m.sendId in asked && m.recvId == localId && m.kind == RequestKind
                 && m.request.Some? && m.request.value.requestType == KeyValue
    ensures !Accepts(asked, localId, ReceiveError)
  {
  }

  /** A server's reply is accepted by the agent it is for, if this waits for the server, and by nobody else. */
  lemma ReplyIsAcceptedIff(asked: set<int>, localId: int, serverId: int, reply: S.Reply)
    ensures Accepts(asked, localId, Received(ReplyMessage(serverId, reply))) <==> serverId in asked && reply.id == localId
  {
  }
}
