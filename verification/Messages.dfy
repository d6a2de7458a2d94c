/** The messages that nodes exchange, without their wire encoding. */
module Messages {
  datatype Option<+T> = None | Some(value: T)

  datatype MessageType = ConfigKind | RequestKind | HeartbeatKind | RegisterKind | TerminateKind
  datatype RequestType = KeyValue | Key | Ack | Block

  datatype Request = Request(requestType: RequestType, keys: seq<int>, values: seq<real>)
  datatype Message = Message(kind: MessageType, sendId: int, recvId: int, request: Option<Request>)

  /** What one call of Receive yields: an error code or a parsed message. */
  datatype Incoming = ReceiveError | Received(message: Message)

  type KeyValueList = seq<(int, real)>

  function Pairs(keys: seq<int>, values: seq<real>): (pairs: KeyValueList)
    requires |keys| <= |values|
    ensures |pairs| == |keys|
    ensures forall i :: 0 <= i < |keys| ==> pairs[i] == (keys[i], values[i])
  {
    if keys == [] then
      []
    else
      Pairs(keys[..|keys| - 1], values[..|keys| - 1]) + [(keys[|keys| - 1], values[|keys| - 1])]
  }

  function KeysOf(pairs: KeyValueList): (keys: seq<int>)
    ensures |keys| == |pairs|
    ensures forall i :: 0 <= i < |pairs| ==> keys[i] == pairs[i].0
  {
    if pairs == [] then [] else KeysOf(pairs[..|pairs| - 1]) + [pairs[|pairs| - 1].0]
  }

  lemma KeysOfPairs(keys: seq<int>, values: seq<real>)
    requires |keys| <= |values|
    ensures KeysOf(Pairs(keys, values)) == keys
  {
  }

  predicate DistinctKeys(pairs: KeyValueList) {
    forall i, j :: 0 <= i < j < |pairs| ==> pairs[i].0 != pairs[j].0
  }

  /** The master's configuration message. */
  datatype ConfigMessage = ConfigMessage(
    workerNum: nat, serverNum: nat, bound: nat, keyRange: nat, backupSize: int, nodeAddresses: seq<string>,
    serverIds: seq<int>, workerIds: seq<int>, masterIds: seq<int>, partition: seq<int>)

  predicate DistinctElements(s: seq<int>) {
    forall i, j :: 0 <= i < j < |s| ==> s[i] != s[j]
  }

  lemma DistinctAppend(s: seq<int>, x: int)
    requires DistinctElements(s) && x !in s
    ensures DistinctElements(s + [x])
  {
    assert forall i :: 0 <= i < |s| ==> s[i] in s;
  }

  /** A configuration that names each server once and puts its start on the circle. */
  predicate WellFormed(config: ConfigMessage) {
    && config.serverNum <= |config.serverIds| && config.serverNum <= |config.partition|
    && DistinctElements(config.serverIds)
    && forall i :: 0 <= i < config.serverNum ==> 0 <= config.partition[i] < config.keyRange
  }

  /** All that a server reads of a configuration is there: the announced workers are listed too, each
      once. */
  predicate Usable(config: ConfigMessage) {
    WellFormed(config) && config.workerNum <= |config.workerIds| && DistinctElements(config.workerIds)
  }
}
