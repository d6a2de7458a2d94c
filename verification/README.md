# A sharded parameter server with bounded staleness

This project models the parameter server of `src/` and proves properties of it. A master cuts the
circle of keys `[0, key_range)` at random points and gives each server the arc that starts at its
point. Agents sort a gradient by key, split it into one block per server and push the blocks; a
server buffers one update per agent and round, and when every agent has pushed, it adds the
average to its parameters and answers the pulls it had blocked. Servers back up the parameters of
their predecessors on the circle. Messages travel through a ring between two threads, with their
destination printed in front.

The files follow the program:

| file | what it models |
|---|---|
| `Circle.dfy`, `Search.dfy`, `Sequences.dfy`, `Messages.dfy` | modular arithmetic, library searches and sorts, slices, messages |
| `Partitioning.dfy`, `Blocks.dfy` | who owns a key and where it is kept; splitting sorted keys into blocks |
| `KeySorting.dfy`, `Pushing.dfy`, `Gathering.dfy`, `Pulling.dfy`, `Agent.dfy` | the agent: sorting pairs, pushing, pulling and gathering |
| `PullSequences.dfy` | pulls one after the other that read the same receiver, for every order of arrival across the servers |
| `Averaging.dfy`, `ServerState.dfy`, `ServerRuns.dfy`, `Server.dfy` | the server: what a round adds up to, its steps as functions on its state, all its runs, and the object with its loops |
| `ServerMessages.dfy`, `Dispatching.dfy` | the messages of a server and what it takes a message for; agents and servers understand each other |
| `Backups.dfy`, `BackupCluster.dfy` | backup slots and takeover; several servers that exchange backups |
| `ShardedTraining.dfy`, `TrainingPulls.dfy` | all servers together against one server without sharding; what a pull returns during a training |
| `FifoRing.dfy`, `Framing.dfy`, `Communicator.dfy` | the ring step by step, the frame around a message, the sender's two threads |
| `TaskConfig.dfy` | the master's configuration and what removing dead nodes does to ownership |

A method of a class is proved against a function of the old state; the properties are then lemmas
about these functions and about all runs of them. `Server.ServePush` and `Server.ServePull`, for
instance, do what `ServerState.Step` does, and `ServerRuns` speaks about every sequence of such
steps, in any interleaving of any number of agents.

Assumptions that the code makes of its callers are stated as `requires` or as validity of a run:
`bound >= 1`, at least one agent, agents numbered by a map, an update that is stored has its keys
at plain offsets of its server, a pull that is answered at once may also have keys that wrapped
around. Values are exact reals and keys mathematical integers.

What the proofs show about the code, besides what it promises:

- With one server, or when all cut points are equal, the modulus in `src/server/server.cc:121`
  makes every segment empty although the agents still have an owner for every key. The segments
  cover the circle if and only if two cut points differ (`Partitioning.SegmentsCoverIff`). The same
  modulus loses a takeover of the whole circle: a takeover preserves contents if and only if the
  segments together are shorter than the circle (`Backups.TakeoverKeepsValuesIff`); they are never
  longer (`Backups.SpanFitsCircle`).
- Only a pull that is answered at once adjusts the index of a key that wrapped around; an update
  and a blocked pull use the plain offset, which is right exactly for keys that did not wrap
  (`Partitioning.PlainOffsetIsSlotIff`).
- A pull whose keys span the whole circle asks the last server twice but takes one answer only, so
  it is incomplete in every order of arrival. The other answer is left in the receiver, ahead of
  everything that server sends later: its replies arrive in the order of the requests, those of
  different servers in any order. A later pull that asks the last server can then take an old reply
  for its own. It gets a stale value if its key has changed since (`PullSequences.StaleReplyIsTaken`),
  and whatever the values are, it misses a key that the late reply does not have
  (`PullSequences.LateReplyIsTaken`, with an instance in `PullSequences.LateReplyExample`). A pull is
  complete for all values and in every order of arrival if and only if it does not span the circle
  and, in case it asks the last server, no earlier pull did (`PullSequences.AlwaysCompleteIff`).
- `SortKeyValue` drops repeated keys and leaves stale pairs behind; it sorts if and only if every
  pair from the first repeated key on has that key, and it is the largest (`KeySorting.SortsIff`).
  A push reads on over the stale pairs: it delivers every pair once if and only if the same condition
  holds (`Pushing.PushDeliversEachPairOnceIff`). Of the keys 1, 1, 2 for instance, the value of key 2
  is sent twice and the second value of key 1 is lost.
- A push to a full buffer is dropped, against the comment at `src/server/server.cc:280-281`: exactly
  when its agent is already `bound` accepted updates ahead of some other agent
  (`ServerRuns.NextPushIsDroppedIff`). No update of a run is lost if and only if, at every push, its
  agent has pushed fewer than `bound` updates more than any other agent (`ServerRuns.AllAcceptedIff`).
  That is so in particular when this server has answered every agent between its pushes
  (`ServerRuns.DisciplinedStayInStep`); an agent that asks this server for no key is not answered by
  it, and waiting for other servers does not help.
- `FixConfig` lowers neither the announced number of servers nor that of workers, so a message made
  after a death announces more than it lists, and a server that reads it reads past the end. Servers
  can use the message of a configuration that was once complete if and only if no server and no agent
  has died since (`TaskConfigModel.TaskConfig.UsableIff`).
- `FifoRing::Initialize` clears the first cell only; the ring works with any
  initial contents (`FifoRingModel.InitInv`).
- The search for the comma in `Consume` is tight: all 12 places are needed for destinations up to
  -1000000000 and suffice for every 32-bit destination (`Framing.CommaPosition`). In every buffer of
  at least two characters, a frame is taken apart exactly if and only if its header fits into the
  buffer with its final NUL (`CommunicatorModel.FrameIsTakenApartIff`).
- The comment at `src/server/server.cc:109-110` describes a partition with one entry more than
  there are servers; the code uses one entry per server and wraps around, as the model does.

## Model

| member | source | states |
|---|---|---|
| Partitioning.OwnerHasLastCut | src/agent/partition.cc:46-53 | the agent's owner of a key is the server with the last cut point at or below it, the last server for keys before every cut, and there is an owner exactly for keys on the circle |
| Partitioning.KeyHasSlot | src/server/server.cc:379-385 | every key on the circle has, at the owner the agent computes, a slot within the length the server computes, and the slot leads back to the key |
| Partitioning.SlotHasKey | src/server/server.cc:113-122 | every slot of every server belongs to exactly the key whose owner and wrapped index it is |
| Partitioning.KeysAndSlotsPairUp | src/server/server.cc:379-385 | ownership is a bijection between the keys of the circle and all slots of all servers, with duplicate cut points and wrapped keys included |
| Partitioning.SegmentsCoverIff | src/server/server.cc:120-122 | the segment lengths sum to the key range if and only if two cut points differ; otherwise all are 0 |
| Partitioning.PlainOffsetIsSlotIff | src/server/server.cc:181-188 | the offset that updates and blocked pulls use is the slot exactly for keys that did not wrap around |
| Partitioning.Partition.Initialize | src/agent/partition.cc:26-40 | the object ends up with exactly the given cut points |
| Partitioning.Partition.GetServerByKey | src/agent/partition.cc:46-53 | the binary search finds the owner, -1 off the circle |
| Partitioning.Partition.NextEnding | src/agent/partition.cc:55-67 | the owner of the key at `start` and the end of its block |
| Search.BinarySearch | src/agent/partition.cc:52-64 | the library search returns the first place whose element is not smaller |
| Search.Sort | src/agent/agent.cc:372 | sorted and a permutation |
| Blocks.NextEndIsBlock | src/agent/partition.cc:55-67 | a block is never empty, has one owner, and hands over to a later server unless it holds wrapped keys |
| Blocks.SplitTiles | src/agent/agent.cc:321-356 | the blocks are non-empty, lie end to end, cover all keys, and each has a single owner |
| Blocks.ServersIncrease | src/agent/agent.cc:321-356 | from the first cut on, server indices strictly increase from block to block |
| Blocks.SplitShape | src/agent/agent.cc:383-408 | there are at most n+1 blocks, and only the last server can get two, the first block and the last |
| Blocks.ServerTwiceIff | src/agent/agent.cc:383-408 | a server gets two blocks exactly when one request has keys before the first cut and keys from the last cut on |
| Blocks.DeliveredIsOwned | src/agent/agent.cc:324-356 | what the blocks carry to a server is what it owns of the list, in list order |
| KeySorting.SortKeyValue | src/agent/agent.cc:27-39 | the arrays end up holding one pair per distinct key in ascending order, with the value of its first occurrence, then what was there before; nothing behind `size` changes |
| KeySorting.SortLeavesFirsts | src/agent/agent.cc:27-39 | for any input the sort leaves, in strictly ascending order, exactly the first pair of every key, and behind these what was there before |
| KeySorting.SortsIff | src/agent/agent.cc:27-39 | that is a sort of the pairs if and only if every pair from the first repeated key on has that key and it is the largest |
| KeySorting.DistinctKeysSort | src/agent/agent.cc:25-26 | pairs with distinct keys are sorted by key and none is lost |
| Pushing.SentIsOwned | src/agent/agent.cc:304-356 | a server receives of a push exactly the sorted pairs that it owns |
| Pushing.LosslessIsPushable | src/agent/agent.cc:288-305 | a gradient on the circle that meets the condition of SortsIff leaves ascending keys on the circle, which is all that Push asks for |
| Pushing.PushDeliversEachPairOnceIff | src/agent/agent.cc:304-356 | where the sort leaves ascending keys on the circle, every pair reaches its owner as often as it was pushed and no other server, if and only if every pair from the first repeated key on has that key and it is the largest |
| Pushing.MessagesCarryBlocks | src/agent/agent.cc:336-353 | every message of a push is a key-value request of this agent, and those addressed to a server's id carry exactly that server's blocks |
| Pulling.PullAsksOwners | src/agent/agent.cc:380-408 | every message of a pull is a request for keys by this agent, and those addressed to a server ask, in order, for exactly the keys of the sorted list that it owns, each as often as it is wanted |
| Dispatching.PushIsServedAsPush | src/server/server.cc:255-261 | every server takes all that a push sends it for pushes of this agent, which together contain exactly the sorted pairs that it owns |
| Dispatching.PullIsServedAsPull | src/server/server.cc:262-267 | every server takes each request of a pull for a pull of this agent for the same keys |
| Dispatching.AcceptsRepliesOnly | src/agent/agent.cc:430-461 | a waiting agent takes exactly the messages with which an awaited server answers its own pulls; any other kind, type, recipient or sender, and a missing content, is ignored |
| Dispatching.ReplyIsAcceptedIff | src/server/server.cc:377-391 | a server's reply is accepted exactly by the agent that it is for, if that agent waits for this server |
| AgentModel.Agent.Push | src/agent/agent.cc:288-359 | the gradient arrays are sorted and the messages sent are one per block, in order |
| AgentModel.Agent.AskServers | src/agent/agent.cc:380-408 | one request per block is sent and the set of asked servers is collected |
| AgentModel.Agent.Gather | src/agent/agent.cc:414-491 | the loop ends and the arrays hold the pairs of the accepted replies in order of arrival |
| AgentModel.Agent.Pull | src/agent/agent.cc:361-494 | both together: requests for the sorted keys, then the gathered replies |
| Gathering.GathersAll | src/agent/agent.cc:422-490 | if no server is asked twice, and what comes from an asked server answers a request of this pull, then in whatever order that comes and whatever is ignored in between, every requested key is gathered once with its server's value |
| Gathering.GathersLess | src/agent/agent.cc:443-465 | if some server is asked twice, something is missing, because its second reply is ignored |
| Gathering.PullIsCompleteIff | src/agent/agent.cc:361-494 | for a receiver without leftovers of earlier pulls, a pull is complete if and only if its keys do not span the whole circle |
| PullSequences.AlwaysCompleteIff | src/agent/agent.cc:361-494 | when every server answers every request once and in the order asked, a pull is complete for all values and in every order of arrival if and only if it does not span the circle and, in case it asks the last server, no earlier pull did |
| PullSequences.CompleteUnlessSpanned | src/agent/agent.cc:422-490 | in every history that meets this condition, the pull gathers every requested key once with its server's value at the time of this pull |
| PullSequences.CleanUnlessSpanned | src/agent/agent.cc:443-465 | after any pulls, no server still owes a reply, except the last one after a pull that spanned the circle |
| PullSequences.SpanningIsIncomplete | src/agent/agent.cc:390-465 | a pull that spans the circle misses a key for every order of arrival across the servers |
| PullSequences.StaleReplyIsTaken | src/agent/agent.cc:443-478 | if any earlier pull spanned the circle and the last server's value has changed since, some order of arrival makes a later pull take an old reply of that server and miss the right value |
| PullSequences.LateReplyIsTaken | src/agent/agent.cc:443-478 | the first pull that spans the circle leaves its last reply to the next pull that asks the last server, which misses a key, whatever the values, if its key wrapped around or is not in that reply |
| PullSequences.LateReplyExample | src/agent/agent.cc:443-478 | an instance with cuts 2 and 5 on 8 keys: after a pull of keys 0, 3 and 6, a pull of key 7 takes the late reply for key 6 and returns without its own |
| PullSequences.NextPullExists | src/agent/agent.cc:422-490 | a pull can always end with the first reply of each server it asks, whatever is still owed to earlier pulls |
| Averaging.RoundSumIsTotal | src/server/server.cc:210-218 | the loops over agents and pairs add up, for every key, exactly what all pairs of all their updates say about it |
| Averaging.TotalOfReordering | src/server/server.cc:216-217 | the order of the pairs does not matter |
| ServerState.FinishRoundKeepsInv | src/server/server.cc:327-334 | shifting the counts matches popping the buffers, and no second complete round is left waiting |
| ServerState.PushKeepsInv | src/server/server.cc:285-335 | a push keeps exact counts, bounded buffers, and blocked pulls only for full buffers |
| ServerState.CountIsCardinality | src/server/server.cc:299 | count k is the number of agents with more than k buffered updates |
| ServerState.ClearedCountsExact | src/server/server.cc:513-518 | lowering the first counts by the size of a buffer makes them exact for the buffers without it |
| ServerState.AddedCountsExact | src/server/server.cc:531-534 | a new empty buffer leaves the counts exact |
| ServerRuns.CountsAreExact | src/server/server.cc:293-335 | after every run the counts are exact, buffers hold at most `bound` updates, and no complete round waits |
| ServerRuns.StateIsFunctionOfPushes | src/server/server.cc:210-223 | after every run the version is the length of the shortest history, each buffer is the rest of its history, and each parameter is the sum over the completed rounds of the round's average |
| ServerRuns.ValueIsTotal | src/server/server.cc:210-223 | after v rounds the value of a key is the total of all that the agents' first v updates say about it, agent by agent, divided by their number: nothing is lost or counted twice |
| ServerRuns.InterleavingDoesNotMatter | src/server/server.cc:285-335 | runs that accepted the same updates per agent end with the same version, parameters, buffers and counts |
| ServerRuns.AgentsStayWithinBound | src/server/server.cc:293-306 | accepted updates of any two agents differ by at most `bound` in number |
| ServerRuns.RepliesAreFreshEnough | src/server/server.cc:350-397 | every reply goes to the agent that asked, for its keys, with the values of one version that misses at most bound - 1 of that agent's updates, whether it was blocked or not |
| ServerRuns.EachPullOnce | src/server/server.cc:341-398 | every accepted pull was answered exactly once or is queued exactly once, never both |
| ServerRuns.AllPullsAreAccepted | src/server/server.cc:341-362 | and the accepted pulls are all pulls that known agents make, in order of arrival |
| ServerRuns.PushReleasesQueue | src/server/server.cc:327-334 | a push that completes a round answers the whole queue in order of arrival and raises the version by one; any other push answers nothing |
| ServerRuns.SomeAgentIsNeverBlocked | src/server/server.cc:350-356 | some agent has an empty buffer and no blocked pull, so not all agents can wait |
| ServerRuns.NextPushIsDroppedIff | src/server/server.cc:293-306 | after any run, a push is dropped exactly when its agent is already `bound` accepted updates ahead of some agent |
| ServerRuns.ReadyIff | src/server/server.cc:341-397 | an agent counts as answered since its last push exactly when a message answers it and no push of it comes after |
| ServerRuns.NoneLostIff | src/server/server.cc:293-306 | during the rest of a run no update is lost if and only if, at every push, its agent has pushed fewer than `bound` updates more than any other |
| ServerRuns.AllAcceptedIff | src/server/server.cc:280-306 | the same for a whole run: what was accepted is what was pushed exactly when the agents stayed in step |
| ServerRuns.DisciplinedStayInStep | src/server/server.cc:350-397 | agents that this server has answered between their pushes stay in step |
| ServerRuns.DisciplinedPushesAreAccepted | src/server/server.cc:293-306 | so none of their updates is lost (the exact condition is that of NoneLostIff) |
| ServerRuns.ValueIsStable | src/server/server.cc:210-223 | what completed rounds computed is not changed by later updates |
| ServerModel.Server.Initialize | src/server/server.cc:78-170 | fails exactly for a senseless number of backups or an unknown id; otherwise place, segment, backup slots, ids, index and zero state are as the message says |
| ServerModel.Server.InitializeBackups | src/server/server.cc:126-131 | slot j-1 starts with as many zeros as the j-th predecessor has keys |
| ServerModel.Server.InitializedServes | src/server/server.cc:78-170 | a configured server with agents satisfies the invariant of serving |
| ServerModel.Server.RespondToAll | src/server/server.cc:176-205 | the loop answers every blocked pull with one message, oldest first, and empties the queue |
| ServerModel.Server.UpdateParameter | src/server/server.cc:210-223 | the loops pop one update per agent and add, to every parameter, the total of all pairs of its key in all these updates, divided by the number of agents |
| ServerModel.Server.ServePush | src/server/server.cc:285-335 | the new state is that of the step, the invariant is kept, and exactly when a round was completed the answers to the blocked pulls and then backup requests are sent |
| ServerModel.Server.ServePull | src/server/server.cc:341-398 | unknown agents are ignored, full buffers block, others are answered at once with one message; the invariant is kept |
| ServerModel.Server.RequestBackup | src/server/server.cc:544-564 | one request message without a content to each of the nearest predecessors, nearest first |
| ServerModel.Server.Backup | src/server/server.cc:567-583 | the slot computed from the sender holds exactly the sent values, whatever its size was; other slots keep theirs |
| ServerModel.Server.RespondBackup | src/server/server.cc:586-607 | one reply message holds all parameters with their keys in order |
| ServerModel.Server.Receive | src/server/server.cc:237-276 | one turn of the loop does with a message what it is taken for: a push, a pull, a backup to store or to answer, or nothing |
| ServerMessages.BackupMessagesAreDispatched | src/server/server.cc:243-253 | a server takes another server's request for a request and its answer for the parameters to store |
| ServerModel.Server.ExtendParameter | src/server/server.cc:610-618 | backups are put in front one by one until the length fits or none is left |
| ServerModel.Server.DropAgents | src/server/server.cc:505-519 | counts are exact for the agents that stay, their buffers are untouched, those of the others are empty, and the index stays injective |
| ServerModel.Server.ReindexAgents | src/server/server.cc:528-535 | new agents among the first `agent_num_` get fresh empty buffers, known ones keep theirs, the index stays injective and the counts exact |
| Backups.SlotInvertsTarget | src/server/server.cc:553-572 | a reply lands in slot j-1 if and only if it comes from the j-th requested predecessor, and no server asks itself |
| Backups.ExtendJoins | src/server/server.cc:610-618 | if the first m backups fill the vector, the loop stops with exactly these in front |
| Backups.TakeoverKeepsValues | src/server/server.cc:467-478 | after taking over the segments of m predecessors from full backups, the vector has the new length, adopted keys read their backed-up values and old keys their old values |
| Backups.TakeoverKeepsValuesIff | src/server/server.cc:467-478 | this holds if and only if the segments together are shorter than the circle |
| Backups.SpanFitsCircle | src/server/server.cc:120-131 | the segments of a server and of its nearest predecessors are never longer than the circle |
| Backups.WholeCircleHasNoLength | src/server/server.cc:475-476 | when they are the whole circle, also with an empty own segment, the new length is 0 |
| BackupCluster.DeliveredValuesAreStored | src/server/server.cc:567-583 | parameters that arrive end up, unchanged, in the slot for the predecessor that sent them, and no other slot of any server changes |
| BackupCluster.DeliveredRequestIsAnswered | src/server/server.cc:586-607 | a request that arrives is answered with the current parameters, behind all that was sent before |
| BackupCluster.CompletedRoundAsks | src/server/server.cc:327-334 | a completed round puts one more request on the connection to each of the nearest predecessors and nothing anywhere else; any other step asks nobody |
| BackupCluster.StepKeepsClusterGood | src/server/server.cc:243-253 | every step of a server or a connection keeps the invariant of the exchange |
| BackupCluster.BackupsArePast | src/server/server.cc:567-607 | in every reachable state, slot j-1 of server i is what the parameters of server (i-j) mod n were at some earlier point of the run |
| BackupCluster.BackupsNeverGoBack | src/server/server.cc:567-583 | along every run, the version in a slot never decreases |
| BackupCluster.RequestsAreAccountedFor | src/server/server.cc:544-607 | in every reachable state a server has sent each of its predecessors one request per completed round, and each request is on its way, or its answer is, or its answer has been stored |
| BackupCluster.BackupsAreRecent | src/server/server.cc:544-607 | once the answer to a request has been stored, the slot holds the parameters that the predecessor had when the request was made or later |
| BackupCluster.BackupsCanCatchUp | src/server/server.cc:544-607 | from every reachable state, deliveries between a server and a predecessor alone answer and store every request, and the slot is then as new as the predecessor was at the last completed round |
| BackupCluster.VersionWasCurrent | src/server/server.cc:222 | every version up to the current one was the current one at some point of the run |
| ShardedTraining.OneBlockPerServer | src/agent/agent.cc:320-356 | a gradient with keys from the first cut on and one for every server is sent as exactly one message per server |
| ShardedTraining.SentTotal | src/agent/agent.cc:304-356 | the owner of a key is sent all that the gradient says about it |
| ShardedTraining.SentIsPlain | src/server/server.cc:217 | in such a training every pushed key is at a plain offset of its server |
| ShardedTraining.OwnerHoldsValue | src/server/server.cc:210-223 | after v rounds the owner of a key holds, at that key's slot, the sum of the v round averages of the agents' gradients |
| ShardedTraining.ShardingRefinesOneServer | src/agent/agent.cc:320-356 | after v rounds the parameters of all servers, glued together by ownership, are exactly those of one server without sharding, whatever the interleavings, as long as no update is dropped |
| TrainingPulls.ReplyHoldsValue | src/server/server.cc:350-397 | every reply gives, for each key of its server, the sum of the gradients' round averages up to one version at most bound - 1 behind |
| TrainingPulls.RepliesAreInTime | src/server/server.cc:350-397 | every reply was given at some point of the run to the agent it is addressed to, with a version that at that point missed at most bound - 1 of the updates of this same agent |
| TrainingPulls.PullReturnsTrainedValues | src/agent/agent.cc:361-494 | from end to end, a pull that meets the condition of AlwaysCompleteIff and is served by replies addressed to its agent returns every requested key once with the value of one version of its owner; when the owner answered, that version missed at most bound - 1 of the updates that the pulling agent itself had pushed there |
| FifoRingModel.InitInv | src/communication/fifo_ring.cc:8-19 | the invariant holds initially for any contents of the cells |
| FifoRingModel.StepKeepsInv | src/communication/fifo_ring.cc:27-70 | every single step of either thread keeps the invariant |
| FifoRingModel.StepRefinesQueue | src/communication/fifo_ring.cc:27-70 | every step leaves the queue alone, or appends a message to a queue that was not full, or returns and removes the head of one that was not empty |
| FifoRingModel.FetchedIsPrefixOfAdded | src/communication/fifo_ring.cc:48-70 | in every interleaving the fetched messages are the first added ones, with the same bytes and lengths; no freed or unset cell is read and -1 is never returned |
| FifoRingModel.TokensAreConserved | src/communication/fifo_ring.cc:27-70 | the two semaphores and the operations in flight always add up to the ring size |
| FifoRingModel.NeverBothBlocked | src/communication/fifo_ring.cc:27-49 | the two threads never wait at the same time |
| FifoRingModel.UnreadIsNeverOverwritten | src/communication/fifo_ring.cc:40-42 | no step of an Add changes a cell that holds an unread message |
| FifoRingModel.AddRunsAlone | src/communication/fifo_ring.cc:27-47 | the steps of an Add, run without interruption, have the effect that the object's method has |
| FifoRingModel.FetchRunsAlone | src/communication/fifo_ring.cc:48-70 | the same for Fetch |
| FifoRingModel.FifoRing.Initialize | src/communication/fifo_ring.cc:8-19 | a new ring is valid and empty |
| FifoRingModel.FifoRing.Add | src/communication/fifo_ring.cc:27-47 | appends the message to the queue and returns its length |
| FifoRingModel.FifoRing.Fetch | src/communication/fifo_ring.cc:48-70 | returns and removes the oldest message and its length |
| Framing.CommaPosition | src/communication/zmq_communicator.cc:84-89 | the comma lies within the 12 searched places for every 32-bit destination, in the last one exactly up to -1000000000, and in general exactly between -10^10 and 10^11 |
| Framing.ScanReadsHeader | src/communication/zmq_communicator.cc:83 | whatever follows the header, the scan reads the destination |
| Framing.ScanReadsNumber | src/communication/zmq_communicator.cc:83 | for any text, white space, one sign and digits in front of anything else are read as the number; without digits the old value stays |
| Framing.FrameRoundTrip | src/communication/zmq_communicator.cc:80-89 | scan and search together recover destination and payload for every payload and any bytes left behind it |
| CommunicatorModel.FrameIsTakenApartIff | src/communication/zmq_communicator.cc:28-38 | in every buffer of at least two characters, what Send frames for a 32-bit destination, Consume takes apart exactly, over any old buffer contents, if and only if the header fits with its final NUL |
| CommunicatorModel.HandedOnIsPrefixOfSent | src/communication/zmq_communicator.cc:70-101 | in every interleaving of sender and consumer around the ring, the destinations and payloads handed on are the first of those sent |
| CommunicatorModel.CutFrameHasWrongLength | src/communication/zmq_communicator.cc:31 | with a header that does not fit, the length of the payload is always wrong |
| CommunicatorModel.Communicator.Send | src/communication/zmq_communicator.cc:28-38 | one frame is added to the ring, header first, and its length is returned |
| CommunicatorModel.Communicator.ScanInt | src/communication/zmq_communicator.cc:83 | the scanning loops compute what the scan is specified to read |
| CommunicatorModel.Communicator.Consume | src/communication/zmq_communicator.cc:77-98 | one frame is taken from the ring, and destination and payload are handed on if the destination is known, dropped otherwise |
| CommunicatorModel.Communicator.AddIdAddr | src/communication/zmq_communicator.cc:103-112 | adds an address only for a new id and never replaces one |
| CommunicatorModel.Communicator.DeleteId | src/communication/zmq_communicator.cc:114-125 | the id is gone afterwards; succeeds exactly if it was there and its socket closed |
| CommunicatorModel.Communicator.RefreshAddresses | src/server/server.cc:486-492 | checking, deleting and adding in turn leaves every listed node with its listed address, whatever was known before, and changes no other entry |
| TaskConfigModel.TaskConfig.AppendServer | src/master/task_config.cc:96-104 | a new server gets the next id, and ids stay distinct across roles |
| TaskConfigModel.TaskConfig.AppendAgent | src/master/task_config.cc:106-114 | the same for an agent |
| TaskConfigModel.TaskConfig.AppendMaster | src/master/task_config.cc:133-146 | the same for a master |
| TaskConfigModel.TaskConfig.GeneratePartition | src/master/task_config.cc:116-123 | the draws are added to what was there, and the result is sorted and a permutation |
| TaskConfigModel.TaskConfig.FixConfig | src/master/task_config.cc:148-163 | exactly the dead nodes are gone from agents and servers, in unchanged order, with their own cut points |
| TaskConfigModel.TaskConfig.ToMessage | src/master/task_config.cc:43-91 | the message carries the configuration, with the address of each id at the position of that id |
| TaskConfigModel.TaskConfig.UsableIff | src/master/task_config.cc:148-163 | all that a server reads of the message is there if and only if no server and no agent of the complete configuration has died |
| Removal.RemovedOrAbsent | src/master/task_config.cc:156-160 | erasing one node's entry is the same as filtering by one more dead node, for the ids and for the list that runs along with them |
| Removal.RemainingIsValid | src/master/task_config.cc:148-163 | the remaining cut points are sorted, on the circle and aligned with the remaining ids |
| Removal.OrphansGoToNearestPredecessor | src/master/task_config.cc:148-163 | after any deaths that leave a server, a survivor keeps its keys and every other key goes to the nearest surviving cyclic predecessor of its owner |

## Left out

- Sockets, protobuf encoding, thread creation, sleeping, logging, command-line flags, ZooKeeper and interface lookup: foreign calls; messages are datatypes and connections are sequences.
- Shared memory, named pipes and the Python and R workers: plumbing between processes on one machine.
- Rounding and overflow: parameters are reals, keys and counts are integers without a width; only destinations are bounded to 32 bits.
- Random drawing in `GeneratePartition`: the draws are a parameter, any values in `[1, key_range - 2]`.
- `Agent::Reconfigurate` and rounds after `Server::Reconfigure`: the agent reads one partition entry too many (src/agent/agent.cc:585-587) and the server re-indexes with its old number of agents (src/server/server.cc:530); of the server's reconfiguration, only the loops that drop and index agents and the extension of the parameters are modelled.
- Multi-producer rings and the buffers that several communicators share in `Produce` and `Consume`: the ring is documented for one producer and one consumer.
- Heartbeats, detection of dead nodes by the clock and the termination set of the master.
- The retry loops that the comments of the server and the agent announce do not exist, so a failed `Send` or `Receive` is only logged there; the model has no failing send, and a failing receive is one of the ignored messages of a pull.
- Finalize and memory that is never freed: no property depends on them.
- FifoRingModel.FifoRing.Fetch: `max_size` is ignored by the code and does not appear; the method covers the calls that do not block, the step model the blocking ones.
- ServerModel.Server.Initialize: registration with the master and the sender's address list are not part of it.
- CommunicatorModel.Communicator.Consume: asks for what the code needs to stay in its buffers: the frame fits, the search meets a comma before it leaves a buffer of fewer than 12 characters, and a comma that it meets lies inside the frame. Frames of Send with a header that fits meet all three.
- AgentModel.Agent.Push: asks only that what the sort leaves is in ascending order of keys on the circle; on anything else the library's binary search gives no defined result.
- ServerModel.Server.Receive: asks that a pushed update has a value for every key, that the message is no configuration, and that parameters come from a server that this one backs up; the code reads or writes past the end otherwise, or reconfigures itself.
- ServerModel.Server.DropAgents: every known agent has an index. After a message that lists more workers than `worker_num`, some have none (src/server/server.cc:143-156), and the lookup at src/server/server.cc:513-516 would insert index 0 and empty another agent's buffer.
- ShardedTraining.ShardingRefinesOneServer: speaks about gradients whose keys are at or above the first cut and that have a key for every server; other keys are updated at the wrong offset, and a server that gets no message falls behind. Its runs are those in which the agents stay in step, so that no update is dropped.
