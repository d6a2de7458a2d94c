/** The messages that a server sends, and what it makes of the messages that it receives. */
module ServerMessages {
  import opened Messages
  import S = ServerState

  // ---- What a server sends ----

  /** The answer to a pull: keys with their values, for the agent that asked. */
  function ReplyMessage(serverId: int, reply: S.Reply): Message {
    Message(RequestKind, serverId, reply.id, Some(Request(KeyValue, reply.keys, reply.values)))
  }

  function ReplyMessages(serverId: int, replies: seq<S.Reply>): (messages: seq<Message>)
    ensures |messages| == |replies|
    ensures forall i :: 0 <= i < |replies| ==> messages[i] == ReplyMessage(serverId, replies[i])
  {
    if replies == [] then [] else [ReplyMessage(serverId, replies[0])] + ReplyMessages(serverId, replies[1..])
  }

  /** The request for another server's parameters: a message without a content. */
  function BackupRequest(serverId: int, target: int): Message {
    Message(RequestKind, serverId, target, None)
  }

  function BackupRequests(serverId: int, targets: seq<int>): (messages: seq<Message>)
    ensures |messages| == |targets|
    ensures forall i :: 0 <= i < |targets| ==> messages[i] == BackupRequest(serverId, targets[i])
  {
    if targets == [] then
      []
    else
      BackupRequests(serverId, targets[..|targets| - 1]) + [BackupRequest(serverId, targets[|targets| - 1])]
  }

  /** The answer to such a request. */
  function BackupReply(serverId: int, target: int, keys: seq<int>, values: seq<real>): Message {
    Message(RequestKind, serverId, target, Some(Request(KeyValue, keys, values)))
  }

  // ---- What a server makes of a message ----

  /** What a message is taken for. */
  datatype Handling =
    | Serve(event: S.Event)
    | Store(sender: int, values: seq<real>)
    | Respond(sender: int)
    | Reconfigure
    | Ignore

  /** The content of a message; one that is missing reads as an empty push. */
  function RequestOf(m: Message): Request {
    if m.request.Some? then m.request.value else Request(KeyValue, [], [])
  }

  /** A pushed update has a value for every key. */
  predicate Readable(m: Message) {
    RequestOf(m).requestType == KeyValue ==> |RequestOf(m).keys| <= |RequestOf(m).values|
  }

  /** Whatever comes from a server is about backups. Of the other messages, requests are taken for pushes or
      pulls by their type, and the master's configuration is applied. */
  function Dispatch(servers: set<int>, m: Message): (handling: Handling)
    requires Readable(m)
    ensures handling.Serve? <==>
            m.sendId !in servers && m.kind == RequestKind && RequestOf(m).requestType in {KeyValue, Key}
    ensures handling.Serve? ==>
              && handling.event.sender == m.sendId
              && (handling.event.Push? <==> RequestOf(m).requestType == KeyValue)
    ensures m.sendId in servers <==> handling.Store? || handling.Respond?
    ensures handling.Reconfigure? <==> m.sendId !in servers && m.kind == ConfigKind
  {
    if m.sendId in servers then
      if m.request.Some? then Store(m.sendId, m.request.value.values) else Respond(m.sendId)
    else if m.kind == RequestKind then
      var request := RequestOf(m);
      match request.requestType
      case KeyValue => Serve(S.Push(m.sendId, Pairs(request.keys, request.values)))
      case Key => Serve(S.Pull(m.sendId, request.keys))
      case _ => Ignore
    else if m.kind == ConfigKind then
      Reconfigure
    else
      Ignore
  }

  /** What the messages addressed to node `id` are taken for there, in sending order. */
  function HandledBy(servers: set<int>, messages: seq<Message>, id: int): seq<Handling>
    requires forall i :: 0 <= i < |messages| ==> Readable(messages[i])
  {
    if messages == [] then
      []
    else
      (if messages[0].recvId == id then [Dispatch(servers, messages[0])] else []) + HandledBy(servers, messages[1..], id)
  }

  /** A server takes another server's request for a request and its answer for the parameters to store. */
  lemma BackupMessagesAreDispatched(servers: set<int>, sender: int, target: int, keys: seq<int>, values: seq<real>)
    requires sender in servers && |keys| <= |values|
    ensures HandledBy(servers, [BackupRequest(sender, target)], target) == [Respond(sender)]
    ensures HandledBy(servers, [BackupReply(sender, target, keys, values)], target) == [Store(sender, values)]
  {
    assert [BackupRequest(sender, target)][1..] == [];
    assert [BackupReply(sender, target, keys, values)][1..] == [];
  }
}
