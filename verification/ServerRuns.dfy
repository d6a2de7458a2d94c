/** Whole runs of one server: any interleaving of pushes and pulls by its agents. */
module ServerRuns {
  import opened Averaging
  import opened Messages
  import opened Partitioning
  import opened Sequences
  import opened ServerState

  /** One answered pull: its number, the version it read, how many updates its agent had pushed
      when it was answered, and whether it had been blocked. */
  datatype Answer = Answer(pull: nat, version: nat, pushed: nat, waited: bool)

  /** What a run has seen: per agent the updates accepted from it, the pulls accepted in order of
      arrival, which of them are blocked, how they were answered, and which agents have not pushed
      since their last answer. */
  datatype History = History(
    pushes: seq<seq<KeyValueList>>,
    pulls: seq<PullInfo>,
    queued: seq<nat>,
    answers: seq<Answer>,
    ready: seq<bool>)

  datatype Run = Run(s: State, h: History)

  function AllReady(n: nat): (ready: seq<bool>)
    ensures |ready| == n && forall i :: 0 <= i < n ==> ready[i]
  {
    if n == 0 then [] else AllReady(n - 1) + [true]
  }

  function InitRun(c: Config): Run {
    Run(Init(c), History(EmptyBuffers(c.agentNum), [], [], [], AllReady(c.agentNum)))
  }

  function AgentOf(c: Config, p: PullInfo): nat
    requires p.id in c.idToIndex
  {
    c.idToIndex[p.id]
  }

  /** The answers to the blocked pulls, in queue order. */
  function LateAnswers(c: Config, h: History, queued: seq<nat>, version: nat): (answers: seq<Answer>)
    requires ValidConfig(c) && |h.pushes| == c.agentNum
    requires forall q :: 0 <= q < |queued| ==> queued[q] < |h.pulls| && h.pulls[queued[q]].id in c.idToIndex
    ensures |answers| == |queued|
    ensures forall q :: 0 <= q < |queued| ==>
              answers[q] == Answer(queued[q], version, |h.pushes[AgentOf(c, h.pulls[queued[q]])]|, true)
  {
    if queued == [] then
      []
    else
      [Answer(queued[0], version, |h.pushes[AgentOf(c, h.pulls[queued[0]])]|, true)]
      + LateAnswers(c, h, queued[1..], version)
  }

  /** The agents answered from the queue may push again. */
  function MarkReady(c: Config, h: History, queued: seq<nat>): (ready: seq<bool>)
    requires ValidConfig(c) && |h.ready| == c.agentNum
    requires forall q :: 0 <= q < |queued| ==> queued[q] < |h.pulls| && h.pulls[queued[q]].id in c.idToIndex
    ensures |ready| == c.agentNum
    ensures forall i :: 0 <= i < c.agentNum ==>
              (ready[i] <==> h.ready[i] || exists q :: 0 <= q < |queued| && AgentOf(c, h.pulls[queued[q]]) == i)
  {
    if queued == [] then
      h.ready
    else
      var last := |queued| - 1;
      MarkReady(c, h, queued[..last])[AgentOf(c, h.pulls[queued[last]]) := true]
  }

  /** The queue of pull numbers mirrors the queue of blocked pulls. */
  predicate Mirrors(c: Config, r: Run) {
    && |r.h.queued| == |r.s.pullRequests|
    && forall q :: 0 <= q < |r.h.queued| ==>
         r.h.queued[q] < |r.h.pulls| && r.h.pulls[r.h.queued[q]] == r.s.pullRequests[q]
  }

  predicate Ready(c: Config, r: Run) {
    Inv(c, r.s) && |r.h.pushes| == |r.h.ready| == c.agentNum && Mirrors(c, r)
  }

  /** The history once a push is buffered or dropped: its agent is no longer ready. */
  function Pushed(c: Config, r: Run, e: Event): (h: History)
    requires Ready(c, r) && e.Push? && e.sender in c.idToIndex
  {
    var i := c.idToIndex[e.sender];
    r.h.(pushes := if Accepted(c, r.s, e) then r.h.pushes[i := r.h.pushes[i] + [e.update]] else r.h.pushes,
         ready := r.h.ready[i := false])
  }

  /** The history once the whole queue is answered with a version. */
  function Released(c: Config, h: History, version: nat): History
    requires ValidConfig(c) && |h.pushes| == |h.ready| == c.agentNum
    requires forall q :: 0 <= q < |h.queued| ==> h.queued[q] < |h.pulls| && h.pulls[h.queued[q]].id in c.idToIndex
  {
    h.(queued := [], answers := h.answers + LateAnswers(c, h, h.queued, version), ready := MarkReady(c, h, h.queued))
  }

  function Observe(c: Config, r: Run, e: Event): Run
    requires Ready(c, r) && Servable(c, r.s, e)
  {
    var s' := Step(c, r.s, e);
    if e.sender !in c.idToIndex then
      Run(s', r.h)
    else
      var i := c.idToIndex[e.sender];
      match e
      case Push(_, _) =>
        var h := Pushed(c, r, e);
        Run(s', if s'.bottomVersion == r.s.bottomVersion then h else Released(c, h, s'.bottomVersion))
      case Pull(sender, keys) =>
        var number := |r.h.pulls|;
        var h := r.h.(pulls := r.h.pulls + [PullInfo(sender, keys)]);
        if Accepted(c, r.s, e) then
          Run(s', h.(answers := h.answers + [Answer(number, r.s.bottomVersion, |h.pushes[i]|, false)],
                     ready := h.ready[i := true]))
        else
          Run(s', h.(queued := h.queued + [number]))
  }

  // ---- State as a function of the accepted updates ----

  /** The r-th update of every agent. */
  function Row(pushes: seq<seq<KeyValueList>>, r: nat): (row: seq<KeyValueList>)
    requires forall i :: 0 <= i < |pushes| ==> r < |pushes[i]|
    ensures |row| == |pushes| && forall i :: 0 <= i < |pushes| ==> row[i] == pushes[i][r]
  {
    if pushes == [] then [] else Row(pushes[..|pushes| - 1], r) + [pushes[|pushes| - 1][r]]
  }

  /** The value of a key after v rounds: the sum over the rounds of the average of the round. */
  function ValueAfter(pushes: seq<seq<KeyValueList>>, v: nat, key: int): real
    requires |pushes| >= 1 && forall i :: 0 <= i < |pushes| ==> v <= |pushes[i]|
  {
    if v == 0 then 0.0
    else ValueAfter(pushes, v - 1, key) + RoundSum(Row(pushes, v - 1), |pushes|, key) / |pushes| as real
  }

  // ---- What completed rounds add up to ----

  /** The pairs of the first v updates of the first m agents, agent by agent. */
  function FirstPairs(pushes: seq<seq<KeyValueList>>, m: nat, v: nat): KeyValueList
    requires m <= |pushes| && forall i :: 0 <= i < |pushes| ==> v <= |pushes[i]|
  {
    if m == 0 then [] else FirstPairs(pushes, m - 1, v) + AllPairs(pushes[m - 1][..v])
  }

  lemma {:induction false} FirstPairsOfRound(pushes: seq<seq<KeyValueList>>, m: nat, v: nat, key: int)
    requires m <= |pushes| && forall i :: 0 <= i < |pushes| ==> v < |pushes[i]|
    ensures Total(FirstPairs(pushes, m, v + 1), key)
            == Total(FirstPairs(pushes, m, v), key) + RoundSum(Row(pushes, v), m, key)
  {
    hide AllPairs;
    if m > 0 {
      FirstPairsOfRound(pushes, m - 1, v, key);
      var mine := pushes[m - 1];
      TakeOneMore(mine, v);
      AllPairsConcat(mine[..v], [mine[v]]);
      AllPairsOfOne(mine[v]);
      TotalConcat(AllPairs(mine[..v]), mine[v], key);
      TotalConcat(FirstPairs(pushes, m - 1, v + 1), AllPairs(mine[..v + 1]), key);
      TotalConcat(FirstPairs(pushes, m - 1, v), AllPairs(mine[..v]), key);
    }
  }

  lemma {:induction false} NoPairs(pushes: seq<seq<KeyValueList>>, m: nat, key: int)
    requires m <= |pushes|
    ensures Total(FirstPairs(pushes, m, 0), key) == 0.0
  {
    if m > 0 {
      NoPairs(pushes, m - 1, key);
      assert FirstPairs(pushes, m, 0) == FirstPairs(pushes, m - 1, 0);
    }
  }

  /** Nothing that agents pushed is lost or counted twice: after v rounds, a key has received the total
      of all that the agents' first v updates say about it, divided by their number. */
  lemma {:induction false} ValueIsTotal(pushes: seq<seq<KeyValueList>>, v: nat, key: int)
    requires |pushes| >= 1 && forall i :: 0 <= i < |pushes| ==> v <= |pushes[i]|
    ensures ValueAfter(pushes, v, key) == Total(FirstPairs(pushes, |pushes|, v), key) / |pushes| as real
  {
    if v == 0 {
      NoPairs(pushes, |pushes|, key);
    } else {
      hide Total, RoundSum, FirstPairs, Row;
      ValueIsTotal(pushes, v - 1, key);
      FirstPairsOfRound(pushes, |pushes|, v - 1, key);
      SharesAdd(Total(FirstPairs(pushes, |pushes|, v - 1), key), RoundSum(Row(pushes, v - 1), |pushes|, key), |pushes| as real);
    }
  }

  lemma SharesAdd(a: real, b: real, n: real)
    requires n > 0.0
    ensures a / n + b / n == (a + b) / n
  {
  }

  predicate Extends(longer: seq<seq<KeyValueList>>, shorter: seq<seq<KeyValueList>>) {
    |longer| == |shorter| && forall i :: 0 <= i < |shorter| ==> shorter[i] <= longer[i]
  }

  /** Later updates do not change what earlier rounds computed. */
  lemma {:induction false} ValueIsStable(longer: seq<seq<KeyValueList>>, shorter: seq<seq<KeyValueList>>, v: nat, key: int)
    requires |shorter| >= 1 && Extends(longer, shorter)
    requires forall i :: 0 <= i < |shorter| ==> v <= |shorter[i]|
    ensures forall i :: 0 <= i < |longer| ==> v <= |longer[i]|
    ensures ValueAfter(longer, v, key) == ValueAfter(shorter, v, key)
  {
    assert forall i :: 0 <= i < |longer| ==> |shorter[i]| <= |longer[i]|;
    if v > 0 {
      ValueIsStable(longer, shorter, v - 1, key);
      assert Row(longer, v - 1) == Row(shorter, v - 1);
    }
  }

  /** Buffers, version and parameters follow from the accepted updates alone. */
  predicate StateFromPushes(c: Config, s: State, pushes: seq<seq<KeyValueList>>)
    requires ValidConfig(c) && Shaped(c, s)
  {
    && |pushes| == c.agentNum
    && (forall i :: 0 <= i < c.agentNum ==>
          s.bottomVersion <= |pushes[i]| && s.versionBuffer[i] == pushes[i][s.bottomVersion..])
    && (forall j :: 0 <= j < c.length ==>
          s.parameters[j] == ValueAfter(pushes, s.bottomVersion, c.startKey + j))
  }

  lemma RoundIsRow(buffers: seq<seq<KeyValueList>>, pushes: seq<seq<KeyValueList>>, v: nat)
    requires |pushes| == |buffers|
    requires forall i :: 0 <= i < |pushes| ==> v < |pushes[i]| && buffers[i] == pushes[i][v..]
    ensures forall i :: 0 <= i < |pushes| ==> buffers[i] != []
    ensures Fronts(buffers) == Row(pushes, v)
    ensures forall i :: 0 <= i < |pushes| ==> Popped(buffers)[i] == pushes[i][v + 1..]
  {
  }

  lemma BufferingKeepsStateFromPushes(c: Config, s: State, pushes: seq<seq<KeyValueList>>, i: nat, update: KeyValueList)
    requires Inv(c, s) && StateFromPushes(c, s, pushes) && i < c.agentNum
    requires |s.versionBuffer[i]| < c.bound && PlainUpdate(c, update)
    ensures var pushes' := pushes[i := pushes[i] + [update]];
            && Extends(pushes', pushes)
            && Shaped(c, Buffered(c, s, i, update))
            && StateFromPushes(c, Buffered(c, s, i, update), pushes')
  {
    var pushes' := pushes[i := pushes[i] + [update]];
    assert Extends(pushes', pushes);
    forall j | 0 <= j < c.length
      ensures s.parameters[j] == ValueAfter(pushes', s.bottomVersion, c.startKey + j)
    {
      ValueIsStable(pushes', pushes, s.bottomVersion, c.startKey + j);
    }
  }

  lemma FinishingKeepsStateFromPushes(c: Config, s: State, pushes: seq<seq<KeyValueList>>)
    requires ValidConfig(c) && Shaped(c, s) && OnlyFullBlocked(c, s) && StateFromPushes(c, s, pushes)
    requires forall i :: 0 <= i < c.agentNum ==> s.versionBuffer[i] != []
    ensures Shaped(c, FinishRound(c, s)) && StateFromPushes(c, FinishRound(c, s), pushes)
  {
    RoundIsRow(s.versionBuffer, pushes, s.bottomVersion);
  }

  // ---- Every answer is a past state, fresh enough ----

  predicate Covers(c: Config, pushes: seq<seq<KeyValueList>>, bottom: nat) {
    ValidConfig(c) && |pushes| == c.agentNum && forall i :: 0 <= i < c.agentNum ==> bottom <= |pushes[i]|
  }

  /** The reply answers pull a.pull with the values of version a.version, at most bound - 1
      updates behind what its agent had pushed. */
  predicate AnswerCorrect(c: Config, pushes: seq<seq<KeyValueList>>, pulls: seq<PullInfo>, bottom: nat, a: Answer, reply: Reply)
    requires Covers(c, pushes, bottom)
  {
    && a.pull < |pulls|
    && pulls[a.pull].id in c.idToIndex
    && reply.id == pulls[a.pull].id
    && reply.keys == pulls[a.pull].keys
    && |reply.values| == |reply.keys|
    && a.version <= bottom
    && a.version <= a.pushed <= |pushes[AgentOf(c, pulls[a.pull])]|
    && a.pushed - a.version <= c.bound - 1
    && forall k :: 0 <= k < |reply.keys| ==>
         reply.values[k] == ValueAfter(pushes, a.version, c.startKey + LocalIndex(c.startKey, c.keyRange, reply.keys[k]))
  }

  predicate AllCorrect(c: Config, pushes: seq<seq<KeyValueList>>, pulls: seq<PullInfo>, bottom: nat,
                       answers: seq<Answer>, replies: seq<Reply>)
    requires Covers(c, pushes, bottom)
  {
    && |answers| == |replies|
    && forall n :: 0 <= n < |answers| ==> AnswerCorrect(c, pushes, pulls, bottom, answers[n], replies[n])
  }

  lemma AnswerStaysCorrect(c: Config, pushes: seq<seq<KeyValueList>>, pushes': seq<seq<KeyValueList>>,
                           pulls: seq<PullInfo>, pulls': seq<PullInfo>, bottom: nat, bottom': nat, a: Answer, reply: Reply)
    requires Covers(c, pushes, bottom) && Covers(c, pushes', bottom') && bottom <= bottom'
    requires Extends(pushes', pushes) && pulls <= pulls'
    requires AnswerCorrect(c, pushes, pulls, bottom, a, reply)
    ensures AnswerCorrect(c, pushes', pulls', bottom', a, reply)
  {
    assert pulls'[a.pull] == pulls[a.pull];
    assert pushes[AgentOf(c, pulls[a.pull])] <= pushes'[AgentOf(c, pulls[a.pull])];
    forall k | 0 <= k < |reply.keys|
      ensures reply.values[k] == ValueAfter(pushes', a.version, c.startKey + LocalIndex(c.startKey, c.keyRange, reply.keys[k]))
    {
      ValueIsStable(pushes', pushes, a.version, c.startKey + LocalIndex(c.startKey, c.keyRange, reply.keys[k]));
    }
  }

  /** Later updates and pulls do not spoil earlier answers. */
  lemma AnswersStayCorrect(c: Config, pushes: seq<seq<KeyValueList>>, pushes': seq<seq<KeyValueList>>,
                           pulls: seq<PullInfo>, pulls': seq<PullInfo>, bottom: nat, bottom': nat,
                           answers: seq<Answer>, replies: seq<Reply>)
    requires Covers(c, pushes, bottom) && Covers(c, pushes', bottom') && bottom <= bottom'
    requires Extends(pushes', pushes) && pulls <= pulls'
    requires AllCorrect(c, pushes, pulls, bottom, answers, replies)
    ensures AllCorrect(c, pushes', pulls', bottom', answers, replies)
  {
    hide AnswerCorrect, Covers, Extends;
    forall n | 0 <= n < |answers|
      ensures AnswerCorrect(c, pushes', pulls', bottom', answers[n], replies[n])
    {
      AnswerStaysCorrect(c, pushes, pushes', pulls, pulls', bottom, bottom', answers[n], replies[n]);
    }
  }

  lemma CorrectConcat(c: Config, pushes: seq<seq<KeyValueList>>, pulls: seq<PullInfo>, bottom: nat,
                      a: seq<Answer>, ra: seq<Reply>, b: seq<Answer>, rb: seq<Reply>)
    requires Covers(c, pushes, bottom)
    requires AllCorrect(c, pushes, pulls, bottom, a, ra) && AllCorrect(c, pushes, pulls, bottom, b, rb)
    ensures AllCorrect(c, pushes, pulls, bottom, a + b, ra + rb)
  {
  }

  predicate AnswersCorrect(c: Config, r: Run)
    requires ValidConfig(c) && Shaped(c, r.s) && StateFromPushes(c, r.s, r.h.pushes)
  {
    AllCorrect(c, r.h.pushes, r.h.pulls, r.s.bottomVersion, r.h.answers, r.s.replies)
  }

  lemma PullAnswersCorrect(c: Config, r: Run, e: Event)
    requires Ready(c, r) && Servable(c, r.s, e) && StateFromPushes(c, r.s, r.h.pushes) && AnswersCorrect(c, r)
    requires e.Pull? && e.sender in c.idToIndex
    ensures StateFromPushes(c, Step(c, r.s, e), r.h.pushes)
    ensures AnswersCorrect(c, Observe(c, r, e))
  {
    var pulls' := Observe(c, r, e).h.pulls;
    AnswersStayCorrect(c, r.h.pushes, r.h.pushes, r.h.pulls, pulls', r.s.bottomVersion, r.s.bottomVersion,
                       r.h.answers, r.s.replies);
    if Accepted(c, r.s, e) {
      var i := c.idToIndex[e.sender];
      CorrectConcat(c, r.h.pushes, pulls', r.s.bottomVersion, r.h.answers, r.s.replies,
                    [Answer(|r.h.pulls|, r.s.bottomVersion, |r.h.pushes[i]|, false)],
                    [Reply(e.sender, e.keys, SlotValues(c, r.s.parameters, e.keys))]);
    }
  }

  /** An agent whose buffer was full is, one round later, bound - 1 updates ahead. */
  lemma LateAnswerCorrect(c: Config, s: State, s': State, h: History, q: nat)
    requires ValidConfig(c) && Shaped(c, s) && OnlyFullBlocked(c, s) && StateFromPushes(c, s, h.pushes)
    requires Shaped(c, s') && StateFromPushes(c, s', h.pushes) && s'.bottomVersion == s.bottomVersion + 1
    requires Mirrors(c, Run(s, h)) && q < |h.queued|
    ensures AnswerCorrect(c, h.pushes, h.pulls, s'.bottomVersion,
                          LateAnswers(c, h, h.queued, s'.bottomVersion)[q],
                          Answers(c, s'.parameters, s.pullRequests)[q])
  {
    var p := s.pullRequests[q];
    assert h.pulls[h.queued[q]] == p;
    assert |s.versionBuffer[AgentOf(c, p)]| == c.bound;
    assert PlainKeys(c, p.keys);
  }

  /** What a completed round answers. */
  lemma LateAnswersCorrect(c: Config, s: State, h: History)
    requires ValidConfig(c) && Shaped(c, s) && OnlyFullBlocked(c, s) && StateFromPushes(c, s, h.pushes)
    requires forall i :: 0 <= i < c.agentNum ==> s.versionBuffer[i] != []
    requires Mirrors(c, Run(s, h))
    requires AllCorrect(c, h.pushes, h.pulls, s.bottomVersion, h.answers, s.replies)
    ensures var s' := FinishRound(c, s);
            && Shaped(c, s') && StateFromPushes(c, s', h.pushes)
            && AllCorrect(c, h.pushes, h.pulls, s'.bottomVersion,
                          h.answers + LateAnswers(c, h, h.queued, s'.bottomVersion), s'.replies)
  {
    FinishingKeepsStateFromPushes(c, s, h.pushes);
    var s' := FinishRound(c, s);
    var late := Answers(c, s'.parameters, s.pullRequests);
    forall q | 0 <= q < |h.queued|
      ensures AnswerCorrect(c, h.pushes, h.pulls, s'.bottomVersion,
                            LateAnswers(c, h, h.queued, s'.bottomVersion)[q], late[q])
    {
      LateAnswerCorrect(c, s, s', h, q);
    }
    AnswersStayCorrect(c, h.pushes, h.pushes, h.pulls, h.pulls, s.bottomVersion, s'.bottomVersion, h.answers, s.replies);
    CorrectConcat(c, h.pushes, h.pulls, s'.bottomVersion, h.answers, s.replies,
                  LateAnswers(c, h, h.queued, s'.bottomVersion), late);
  }

  /** The first half of a push: the update is buffered, and its agent is no longer ready. */
  function AfterBuffering(c: Config, r: Run, e: Event): Run
    requires Ready(c, r) && Servable(c, r.s, e) && e.Push? && e.sender in c.idToIndex
  {
    Run(Buffered(c, r.s, c.idToIndex[e.sender], e.update), Pushed(c, r, e))
  }

  lemma BufferingKeepsHistory(c: Config, r: Run, e: Event)
    requires Ready(c, r) && Servable(c, r.s, e) && StateFromPushes(c, r.s, r.h.pushes)
    requires e.Push? && e.sender in c.idToIndex
    ensures var r1 := AfterBuffering(c, r, e);
            && Shaped(c, r1.s) && Counted(c, r1.s) && OnlyFullBlocked(c, r1.s)
            && StateFromPushes(c, r1.s, r1.h.pushes)
            && Extends(r1.h.pushes, r.h.pushes) && Mirrors(c, r1)
  {
    var i := c.idToIndex[e.sender];
    BufferedKeepsCounts(c, r.s, i, e.update);
    if Accepted(c, r.s, e) {
      BufferingKeepsStateFromPushes(c, r.s, r.h.pushes, i, e.update);
    }
  }

  /** The second half of a push that completes the round: it is finished and the queue answered. */
  lemma ObserveComplete(c: Config, r: Run, e: Event, r1: Run)
    requires Ready(c, r) && Servable(c, r.s, e) && e.Push? && e.sender in c.idToIndex
    requires r1 == AfterBuffering(c, r, e)
    requires Shaped(c, r1.s) && Counted(c, r1.s) && OnlyFullBlocked(c, r1.s) && Mirrors(c, r1)
    requires RoundComplete(c, r1.s)
    ensures |r1.h.pushes| == |r1.h.ready| == c.agentNum
    ensures forall q :: 0 <= q < |r1.h.queued| ==> r1.h.queued[q] < |r1.h.pulls| && r1.h.pulls[r1.h.queued[q]].id in c.idToIndex
    ensures Observe(c, r, e).s == FinishRound(c, r1.s)
    ensures Observe(c, r, e).h == Released(c, r1.h, r.s.bottomVersion + 1)
    ensures Observe(c, r, e).s.bottomVersion == r.s.bottomVersion + 1
  {
    hide Step, FinishRound, LateAnswers, MarkReady, Buffered, Mirrors, OnlyFullBlocked, Counted;
    BlockedAreKnown(c, r1);
    StepInHalves(c, r.s, e, r1.s);
  }

  lemma ObserveIncomplete(c: Config, r: Run, e: Event, r1: Run)
    requires Ready(c, r) && Servable(c, r.s, e) && e.Push? && e.sender in c.idToIndex
    requires r1 == AfterBuffering(c, r, e)
    requires Shaped(c, r1.s) && Counted(c, r1.s) && OnlyFullBlocked(c, r1.s) && !RoundComplete(c, r1.s)
    ensures Observe(c, r, e) == r1
  {
    hide Step, FinishRound, Released, Buffered;
    StepInHalves(c, r.s, e, r1.s);
  }

  lemma StepInHalves(c: Config, s: State, e: Event, s1: State)
    requires Inv(c, s) && Servable(c, s, e) && e.Push? && e.sender in c.idToIndex
    requires s1 == Buffered(c, s, c.idToIndex[e.sender], e.update)
    requires Shaped(c, s1) && Counted(c, s1) && OnlyFullBlocked(c, s1)
    ensures Step(c, s, e) == if RoundComplete(c, s1) then FinishRound(c, s1) else s1
    ensures s1.bottomVersion == s.bottomVersion
    ensures RoundComplete(c, s1) ==> FinishRound(c, s1).bottomVersion == s.bottomVersion + 1
  {
  }

  /** A push does what its two halves do: buffering the update and, if that completes the round,
      finishing it. */
  lemma PushInHalves(c: Config, r: Run, e: Event) returns (r1: Run, complete: bool)
    requires Ready(c, r) && Servable(c, r.s, e) && StateFromPushes(c, r.s, r.h.pushes)
    requires e.Push? && e.sender in c.idToIndex
    ensures Shaped(c, r1.s) && OnlyFullBlocked(c, r1.s) && StateFromPushes(c, r1.s, r1.h.pushes)
    ensures Extends(r1.h.pushes, r.h.pushes) && Mirrors(c, r1)
    ensures r1.s.bottomVersion == r.s.bottomVersion && r1.s.replies == r.s.replies
    ensures r1.h == r.h.(pushes := r1.h.pushes, ready := r.h.ready[c.idToIndex[e.sender] := false])
    ensures !complete ==> Observe(c, r, e) == r1
    ensures complete ==> forall i :: 0 <= i < c.agentNum ==> r1.s.versionBuffer[i] != []
    ensures complete ==> Observe(c, r, e) == Run(FinishRound(c, r1.s), Released(c, r1.h, r.s.bottomVersion + 1))
    ensures complete ==> Observe(c, r, e).s.bottomVersion == r.s.bottomVersion + 1
  {
    BufferingKeepsHistory(c, r, e);
    r1 := AfterBuffering(c, r, e);
    complete := RoundComplete(c, r1.s);
    if complete {
      ObserveComplete(c, r, e, r1);
    } else {
      ObserveIncomplete(c, r, e, r1);
    }
  }

  lemma ObserveSteps(c: Config, r: Run, e: Event)
    requires Ready(c, r) && Servable(c, r.s, e)
    ensures Observe(c, r, e).s == Step(c, r.s, e)
  {
  }

  lemma PushAnswersCorrect(c: Config, r: Run, e: Event)
    requires Ready(c, r) && Servable(c, r.s, e) && StateFromPushes(c, r.s, r.h.pushes) && AnswersCorrect(c, r)
    requires e.Push? && e.sender in c.idToIndex
    ensures Inv(c, Step(c, r.s, e)) && StateFromPushes(c, Step(c, r.s, e), Observe(c, r, e).h.pushes)
    ensures AnswersCorrect(c, Observe(c, r, e))
  {
    hide Observe, Servable, Step, LateAnswers, MarkReady;
    ObserveSteps(c, r, e);
    StepKeepsInv(c, r.s, e);
    var r1, complete := PushInHalves(c, r, e);
    AnswersStayCorrect(c, r.h.pushes, r1.h.pushes, r.h.pulls, r.h.pulls, r.s.bottomVersion, r.s.bottomVersion,
                       r.h.answers, r.s.replies);
    if complete {
      LateAnswersCorrect(c, r1.s, r1.h);
    }
  }

  // ---- Every pull is answered once, and blocked pulls in their order of arrival ----

  function PullsOf(answers: seq<Answer>): (pulls: seq<nat>)
    ensures |pulls| == |answers| && forall n :: 0 <= n < |answers| ==> pulls[n] == answers[n].pull
  {
    if answers == [] then [] else PullsOf(answers[..|answers| - 1]) + [answers[|answers| - 1].pull]
  }

  function Numbers(n: nat): (numbers: seq<nat>)
    ensures |numbers| == n && forall i :: 0 <= i < n ==> numbers[i] == i
  {
    if n == 0 then [] else Numbers(n - 1) + [n - 1]
  }

  lemma PullsOfConcat(a: seq<Answer>, b: seq<Answer>)
    ensures PullsOf(a + b) == PullsOf(a) + PullsOf(b)
  {
  }

  /** Every accepted pull has been answered exactly once or is still queued, not both. */
  predicate ExactlyOnce(h: History) {
    multiset(PullsOf(h.answers)) + multiset(h.queued) == multiset(Numbers(|h.pulls|))
  }

  predicate QueueAscends(h: History) {
    && (forall p, q :: 0 <= p < q < |h.queued| ==> h.queued[p] < h.queued[q])
    && (forall q :: 0 <= q < |h.queued| ==> h.queued[q] < |h.pulls|)
  }

  predicate VersionsAscend(answers: seq<Answer>) {
    forall m, n :: 0 <= m < n < |answers| ==> answers[m].version <= answers[n].version
  }

  predicate WaitedAscend(answers: seq<Answer>) {
    forall m, n :: 0 <= m < n < |answers| && answers[m].waited && answers[n].waited ==>
      answers[m].pull < answers[n].pull
  }

  predicate WaitedBefore(answers: seq<Answer>, queued: seq<nat>) {
    forall n, q :: 0 <= n < |answers| && 0 <= q < |queued| && answers[n].waited ==> answers[n].pull < queued[q]
  }

  /** Blocked pulls leave the queue in the order in which they came, and no answer goes back to
      an older version. */
  predicate InOrder(h: History) {
    && QueueAscends(h)
    && VersionsAscend(h.answers)
    && WaitedAscend(h.answers)
    && WaitedBefore(h.answers, h.queued)
    && (forall n :: 0 <= n < |h.answers| ==> h.answers[n].pull < |h.pulls|)
  }

  predicate NotNewerThan(h: History, bottom: nat) {
    forall n :: 0 <= n < |h.answers| ==> h.answers[n].version <= bottom
  }

  /** An agent that has been answered since its last push has room in its buffer. */
  predicate ReadyHasRoom(c: Config, r: Run)
    requires Shaped(c, r.s) && |r.h.ready| == c.agentNum
  {
    forall i :: 0 <= i < c.agentNum && r.h.ready[i] ==> |r.s.versionBuffer[i]| < c.bound
  }

  predicate Good(c: Config, r: Run) {
    && Ready(c, r)
    && StateFromPushes(c, r.s, r.h.pushes)
    && AnswersCorrect(c, r)
    && ExactlyOnce(r.h)
    && InOrder(r.h)
    && ReadyHasRoom(c, r)
  }

  /** Answering the whole queue, in queue order. */
  lemma ReleasedInOrder(h: History, h': History, late: seq<Answer>, version: nat)
    requires InOrder(h) && NotNewerThan(h, version)
    requires |late| == |h.queued|
    requires forall q :: 0 <= q < |late| ==> late[q].pull == h.queued[q] && late[q].version == version
    requires h'.pulls == h.pulls && h'.queued == [] && h'.answers == h.answers + late
    ensures InOrder(h')
  {
    var answers := h.answers + late;
    assert WaitedAscend(answers);
    assert VersionsAscend(answers);
  }

  lemma ReleasedOnce(h: History, h': History, late: seq<Answer>)
    requires ExactlyOnce(h)
    requires |late| == |h.queued| && forall q :: 0 <= q < |late| ==> late[q].pull == h.queued[q]
    requires h'.pulls == h.pulls && h'.queued == [] && h'.answers == h.answers + late
    ensures PullsOf(h'.answers) == PullsOf(h.answers) + h.queued
    ensures ExactlyOnce(h')
  {
    PullsOfConcat(h.answers, late);
    assert PullsOf(late) == h.queued;
  }

  lemma QueueReleasedOnce(c: Config, h: History, h': History, version: nat)
    requires ValidConfig(c) && |h.pushes| == c.agentNum
    requires forall q :: 0 <= q < |h.queued| ==> h.queued[q] < |h.pulls| && h.pulls[h.queued[q]].id in c.idToIndex
    requires ExactlyOnce(h)
    requires h'.pulls == h.pulls && h'.queued == [] && h'.answers == h.answers + LateAnswers(c, h, h.queued, version)
    ensures ExactlyOnce(h')
    ensures PullsOf(h'.answers) == PullsOf(h.answers) + h.queued
  {
    ReleasedOnce(h, h', LateAnswers(c, h, h.queued, version));
  }

  lemma QueueReleasedInOrder(c: Config, h: History, h': History, version: nat)
    requires ValidConfig(c) && |h.pushes| == c.agentNum
    requires forall q :: 0 <= q < |h.queued| ==> h.queued[q] < |h.pulls| && h.pulls[h.queued[q]].id in c.idToIndex
    requires InOrder(h) && NotNewerThan(h, version)
    requires h'.pulls == h.pulls && h'.queued == [] && h'.answers == h.answers + LateAnswers(c, h, h.queued, version)
    ensures InOrder(h')
  {
    ReleasedInOrder(h, h', LateAnswers(c, h, h.queued, version), version);
  }

  lemma BlockedAreKnown(c: Config, r: Run)
    requires ValidConfig(c) && Shaped(c, r.s) && OnlyFullBlocked(c, r.s) && Mirrors(c, r)
    ensures forall q :: 0 <= q < |r.h.queued| ==> r.h.queued[q] < |r.h.pulls| && r.h.pulls[r.h.queued[q]].id in c.idToIndex
  {
    assert forall q :: 0 <= q < |r.h.queued| ==> r.h.pulls[r.h.queued[q]] == r.s.pullRequests[q];
  }

  /** A push that completes a round answers the whole queue, oldest pull first; any other push
      answers nothing. */
  lemma PushReleasesQueue(c: Config, r: Run, e: Event)
    requires Good(c, r) && Servable(c, r.s, e) && e.Push?
    ensures var r' := Observe(c, r, e);
            && ExactlyOnce(r'.h) && InOrder(r'.h)
            && (r'.s.bottomVersion == r.s.bottomVersion ==> r'.h.queued == r.h.queued && r'.h.answers == r.h.answers)
            && (r'.s.bottomVersion != r.s.bottomVersion ==>
                  && r'.s.bottomVersion == r.s.bottomVersion + 1
                  && r'.h.queued == []
                  && PullsOf(r'.h.answers) == PullsOf(r.h.answers) + r.h.queued)
  {
    hide FinishRound, MarkReady, StateFromPushes, Buffered;
    if e.sender in c.idToIndex {
      var r1, complete := PushInHalves(c, r, e);
      if complete {
        BlockedAreKnown(c, r1);
        QueueReleasedOnce(c, r1.h, Observe(c, r, e).h, r.s.bottomVersion + 1);
        QueueReleasedInOrder(c, r1.h, Observe(c, r, e).h, r.s.bottomVersion + 1);
      }
    }
  }

  lemma PushKeepsGood(c: Config, r: Run, e: Event)
    requires Good(c, r) && Servable(c, r.s, e) && e.Push? && e.sender in c.idToIndex
    ensures Good(c, Observe(c, r, e))
  {
    PushAnswersCorrect(c, r, e);
    PushReleasesQueue(c, r, e);
    PushKeepsReady(c, r, e);
    PushKeepsRoom(c, r, e);
  }

  lemma PushKeepsReady(c: Config, r: Run, e: Event)
    requires Good(c, r) && Servable(c, r.s, e) && e.Push? && e.sender in c.idToIndex
    ensures Inv(c, Step(c, r.s, e)) && Ready(c, Observe(c, r, e))
  {
    hide AnswersCorrect, ExactlyOnce, InOrder;
    StepKeepsInv(c, r.s, e);
    var r1, complete := PushInHalves(c, r, e);
  }

  lemma PushKeepsRoom(c: Config, r: Run, e: Event)
    requires Good(c, r) && Servable(c, r.s, e) && e.Push? && e.sender in c.idToIndex
    requires Ready(c, Observe(c, r, e))
    ensures ReadyHasRoom(c, Observe(c, r, e))
  {
    hide AnswersCorrect, ExactlyOnce, InOrder;
    var r1, complete := PushInHalves(c, r, e);
    if complete {
      FinishMakesRoom(c, r1.s);
    } else {
      BufferGrowsOnlyForPusher(c, r, e);
    }
  }

  /** After a round every agent has room in its buffer. */
  lemma FinishMakesRoom(c: Config, s: State)
    requires ValidConfig(c) && Shaped(c, s) && OnlyFullBlocked(c, s)
    requires forall i :: 0 <= i < c.agentNum ==> s.versionBuffer[i] != []
    ensures Shaped(c, FinishRound(c, s))
    ensures forall i :: 0 <= i < c.agentNum ==> |FinishRound(c, s).versionBuffer[i]| < c.bound
  {
  }

  lemma BufferGrowsOnlyForPusher(c: Config, r: Run, e: Event)
    requires Good(c, r) && Servable(c, r.s, e) && e.Push? && e.sender in c.idToIndex
    requires Ready(c, Observe(c, r, e)) && Observe(c, r, e).s.bottomVersion == r.s.bottomVersion
    ensures ReadyHasRoom(c, Observe(c, r, e))
  {
    BufferedKeepsCounts(c, r.s, c.idToIndex[e.sender], e.update);
  }

  lemma OneMoreNumber(n: nat)
    ensures Numbers(n + 1) == Numbers(n) + [n]
  {
  }

  lemma AnsweredOnce(h: History, h': History, a: Answer)
    requires ExactlyOnce(h) && a.pull == |h.pulls|
    requires |h'.pulls| == |h.pulls| + 1 && h'.queued == h.queued && h'.answers == h.answers + [a]
    ensures ExactlyOnce(h')
  {
    OneMoreNumber(|h.pulls|);
    PullsOfConcat(h.answers, [a]);
    assert PullsOf([a]) == [a.pull];
  }

  lemma AnsweredInOrder(h: History, h': History, a: Answer)
    requires InOrder(h) && NotNewerThan(h, a.version)
    requires a.pull == |h.pulls| && !a.waited
    requires |h'.pulls| == |h.pulls| + 1 && h'.queued == h.queued && h'.answers == h.answers + [a]
    ensures InOrder(h')
  {
    var answers := h.answers + [a];
    assert VersionsAscend(answers);
    assert WaitedAscend(answers);
    assert WaitedBefore(answers, h.queued);
  }

  lemma QueuedOnce(h: History, h': History)
    requires ExactlyOnce(h)
    requires |h'.pulls| == |h.pulls| + 1 && h'.queued == h.queued + [|h.pulls|] && h'.answers == h.answers
    ensures ExactlyOnce(h')
  {
    OneMoreNumber(|h.pulls|);
  }

  lemma QueuedInOrder(h: History, h': History)
    requires InOrder(h)
    requires |h'.pulls| == |h.pulls| + 1 && h'.queued == h.queued + [|h.pulls|] && h'.answers == h.answers
    ensures InOrder(h')
  {
    var queued := h.queued + [|h.pulls|];
    assert WaitedBefore(h.answers, queued);
  }

  lemma PullKeepsGood(c: Config, r: Run, e: Event)
    requires Good(c, r) && Servable(c, r.s, e) && e.Pull? && e.sender in c.idToIndex
    ensures Good(c, Observe(c, r, e))
  {
    hide ExactlyOnce, InOrder;
    StepKeepsInv(c, r.s, e);
    PullAnswersCorrect(c, r, e);
    var h' := Observe(c, r, e).h;
    if Accepted(c, r.s, e) {
      AnsweredOnce(r.h, h', h'.answers[|r.h.answers|]);
      AnsweredInOrder(r.h, h', h'.answers[|r.h.answers|]);
    } else {
      QueuedOnce(r.h, h');
      QueuedInOrder(r.h, h');
    }
  }

  lemma StepKeepsGood(c: Config, r: Run, e: Event)
    requires Good(c, r) && Servable(c, r.s, e)
    ensures Good(c, Observe(c, r, e))
  {
    if e.sender in c.idToIndex {
      if e.Push? {
        PushKeepsGood(c, r, e);
      } else {
        PullKeepsGood(c, r, e);
      }
    }
  }

  lemma InitGood(c: Config)
    requires ValidConfig(c)
    ensures Good(c, InitRun(c))
  {
    InitInv(c);
  }

  // ---- Whole runs ----

  /** Every message of the run is one that the server relies on getting. */
  predicate ValidRun(c: Config, r: Run, events: seq<Event>)
    requires Good(c, r)
    decreases |events|
  {
    events == [] ||
    (Servable(c, r.s, events[0]) &&
     (StepKeepsGood(c, r, events[0]); ValidRun(c, Observe(c, r, events[0]), events[1..])))
  }

  /** The invariant holds after every run, in whatever order the messages come. */
  function RunOf(c: Config, r: Run, events: seq<Event>): (last: Run)
    requires Good(c, r) && ValidRun(c, r, events)
    ensures Good(c, last)
    decreases |events|
  {
    if events == [] then
      r
    else
      StepKeepsGood(c, r, events[0]);
      RunOf(c, Observe(c, r, events[0]), events[1..])
  }

  predicate Reaches(c: Config, events: seq<Event>) {
    ValidConfig(c) && (InitGood(c); ValidRun(c, InitRun(c), events))
  }

  function After(c: Config, events: seq<Event>): (r: Run)
    requires Reaches(c, events)
    ensures Good(c, r)
  {
    InitGood(c);
    RunOf(c, InitRun(c), events)
  }

  // ---- What holds after every run ----

  /** The version is the length of the shortest history, each buffer is the rest of its history,
      and the parameters are the sum over the completed rounds of the average of the round. */
  lemma StateIsFunctionOfPushes(c: Config, events: seq<Event>)
    requires Reaches(c, events)
    ensures var s, pushes := After(c, events).s, After(c, events).h.pushes;
            && |pushes| == c.agentNum == |s.versionBuffer| && |s.parameters| == c.length
            && (forall i :: 0 <= i < c.agentNum ==> s.bottomVersion <= |pushes[i]|)
            && (exists i :: 0 <= i < c.agentNum && s.bottomVersion == |pushes[i]|)
            && (forall i :: 0 <= i < c.agentNum ==> s.versionBuffer[i] == pushes[i][s.bottomVersion..])
            && (forall j :: 0 <= j < c.length ==> s.parameters[j] == ValueAfter(pushes, s.bottomVersion, c.startKey + j))
  {
    var s, pushes := After(c, events).s, After(c, events).h.pushes;
    AllAbove(s.versionBuffer, c.agentNum, 0);
    var i :| 0 <= i < c.agentNum && |s.versionBuffer[i]| == 0;
    assert s.bottomVersion == |pushes[i]|;
  }

  /** Between any two messages, count k is the number of agents with more than k buffered updates, no
      buffer holds more than `bound`, and no complete round waits to be processed. */
  lemma CountsAreExact(c: Config, events: seq<Event>)
    requires Reaches(c, events)
    ensures var s := After(c, events).s;
            && |s.finishCount| == c.bound && |s.versionBuffer| == c.agentNum
            && (forall k :: 0 <= k < c.bound ==> s.finishCount[k] == |Above(s.versionBuffer, c.agentNum, k)|)
            && (forall i :: 0 <= i < c.agentNum ==> |s.versionBuffer[i]| <= c.bound)
            && s.finishCount[0] < c.agentNum
  {
    var s := After(c, events).s;
    forall k | 0 <= k < c.bound
      ensures s.finishCount[k] == |Above(s.versionBuffer, c.agentNum, k)|
    {
      CountIsCardinality(s.versionBuffer, c.agentNum, k);
    }
  }

  /** Two runs that accepted the same updates per agent end in the same state, however their
      messages were interleaved and whatever was pulled. */
  lemma InterleavingDoesNotMatter(c: Config, events: seq<Event>, events': seq<Event>)
    requires Reaches(c, events) && Reaches(c, events')
    requires After(c, events).h.pushes == After(c, events').h.pushes
    ensures var s, s' := After(c, events).s, After(c, events').s;
            && s.bottomVersion == s'.bottomVersion
            && s.parameters == s'.parameters
            && s.versionBuffer == s'.versionBuffer
            && s.finishCount == s'.finishCount
  {
    StateIsFunctionOfPushes(c, events);
    StateIsFunctionOfPushes(c, events');
  }

  /** No agent is ever more than `bound` accepted updates ahead of another. */
  lemma AgentsStayWithinBound(c: Config, events: seq<Event>, i: nat, j: nat)
    requires Reaches(c, events) && i < c.agentNum && j < c.agentNum
    ensures |After(c, events).h.pushes[i]| <= |After(c, events).h.pushes[j]| + c.bound
  {
    var r := After(c, events);
    assert |r.s.versionBuffer[i]| == |r.h.pushes[i]| - r.s.bottomVersion;
  }

  lemma {:induction false} NumberCount(n: nat, p: nat)
    ensures multiset(Numbers(n))[p] == if p < n then 1 else 0
  {
    if n > 0 {
      NumberCount(n - 1, p);
    }
  }

  /** Every accepted pull was answered exactly once, or waits in the queue exactly once. */
  lemma EachPullOnce(c: Config, events: seq<Event>, p: nat)
    requires Reaches(c, events) && p < |After(c, events).h.pulls|
    ensures var h := After(c, events).h;
            multiset(PullsOf(h.answers))[p] + multiset(h.queued)[p] == 1
  {
    var h := After(c, events).h;
    NumberCount(|h.pulls|, p);
    assert (multiset(PullsOf(h.answers)) + multiset(h.queued))[p] == 1;
  }

  /** The pull that a message makes, if its sender is known. */
  function PullBy(c: Config, e: Event): seq<PullInfo> {
    if e.Pull? && e.sender in c.idToIndex then [PullInfo(e.sender, e.keys)] else []
  }

  /** The pulls of known agents in a run, in order of arrival. */
  function PullsIn(c: Config, events: seq<Event>): seq<PullInfo> {
    if events == [] then [] else PullBy(c, events[0]) + PullsIn(c, events[1..])
  }

  lemma {:induction false} RunRecordsPulls(c: Config, r: Run, events: seq<Event>)
    requires Good(c, r) && ValidRun(c, r, events)
    ensures RunOf(c, r, events).h.pulls == r.h.pulls + PullsIn(c, events)
    decreases |events|
  {
    hide Good, ValidRun, RunOf, Servable, Ready, Observe, PullBy;
    if events == [] {
      NoMessages(c, r);
    } else {
      FirstOfRun(c, r, events);
      ConcatAssociates(r.h.pulls, PullBy(c, events[0]), PullsIn(c, events[1..]));
      ObservesPull(c, r, events[0]);
      RunRecordsPulls(c, Observe(c, r, events[0]), events[1..]);
    }
  }

  lemma ObservesPull(c: Config, r: Run, e: Event)
    requires Ready(c, r) && Servable(c, r.s, e)
    ensures Observe(c, r, e).h.pulls == r.h.pulls + PullBy(c, e)
  {
  }

  /** The pulls that are answered or queued are all pulls that known agents make. */
  lemma AllPullsAreAccepted(c: Config, events: seq<Event>)
    requires Reaches(c, events)
    ensures After(c, events).h.pulls == PullsIn(c, events)
  {
    InitGood(c);
    RunRecordsPulls(c, InitRun(c), events);
  }

  /** Every reply goes to the agent that pulled and carries, for its keys, the parameters of one
      version; that version misses at most bound - 1 of the updates its agent had pushed,
      whether the pull was answered at once or had been blocked. */
  lemma RepliesAreFreshEnough(c: Config, events: seq<Event>, n: nat)
    requires Reaches(c, events) && n < |After(c, events).h.answers|
    ensures var r := After(c, events);
            && |r.s.replies| == |r.h.answers|
            && Covers(c, r.h.pushes, r.s.bottomVersion)
            && AnswerCorrect(c, r.h.pushes, r.h.pulls, r.s.bottomVersion, r.h.answers[n], r.s.replies[n])
  {
    assert Good(c, After(c, events));
  }

  /** Answer n is given by the last of the first m messages: with the version that the server has then,
      and with the number of updates that it has then accepted from the agent that pulled. */
  predicate AnsweredBy(c: Config, r: Run, events: seq<Event>, m: nat, n: nat, a: Answer)
    requires Good(c, r)
  {
    && 1 <= m <= |events| && ValidRun(c, r, events[..m])
    && var last := RunOf(c, r, events[..m]);
       && n < |last.h.answers| && last.h.answers[n] == a
       && a.version == last.s.bottomVersion
       && a.pull < |last.h.pulls| && last.h.pulls[a.pull].id in c.idToIndex
       && |last.h.pushes| == c.agentNum && a.pushed == |last.h.pushes[AgentOf(c, last.h.pulls[a.pull])]|
  }

  /** The answers that one message brings are recorded as they are given. */
  lemma NewAnswers(c: Config, r: Run, e: Event)
    requires Good(c, r) && Servable(c, r.s, e)
    ensures var r' := Observe(c, r, e);
            && r.h.answers <= r'.h.answers && r.h.pulls <= r'.h.pulls && |r'.h.pushes| == c.agentNum
            && forall n :: |r.h.answers| <= n < |r'.h.answers| ==>
                 var a := r'.h.answers[n];
                 && a.version == r'.s.bottomVersion
                 && a.pull < |r'.h.pulls| && r'.h.pulls[a.pull].id in c.idToIndex
                 && a.pushed == |r'.h.pushes[AgentOf(c, r'.h.pulls[a.pull])]|
  {
    hide AnswersCorrect, ExactlyOnce, InOrder, StateFromPushes, FinishRound, MarkReady, Buffered;
    if e.Push? && e.sender in c.idToIndex {
      var r1, complete := PushInHalves(c, r, e);
      if complete {
        BlockedAreKnown(c, r1);
      }
    }
  }

  /** A run only adds answers and pulls. */
  lemma {:induction false} RunOnlyAdds(c: Config, r: Run, events: seq<Event>)
    requires Good(c, r) && ValidRun(c, r, events)
    ensures r.h.answers <= RunOf(c, r, events).h.answers && r.h.pulls <= RunOf(c, r, events).h.pulls
    decreases |events|
  {
    hide Good, Ready, Servable, Observe;
    if events != [] {
      FirstOfRun(c, r, events);
      NewAnswers(c, r, events[0]);
      RunOnlyAdds(c, Observe(c, r, events[0]), events[1..]);
    }
  }

  lemma OneMoreMessage(c: Config, r: Run, events: seq<Event>, m: nat)
    requires Good(c, r) && ValidRun(c, r, events) && events != [] && m < |events|
    requires Ready(c, r) && Servable(c, r.s, events[0])
    requires Good(c, Observe(c, r, events[0])) && ValidRun(c, Observe(c, r, events[0]), events[1..][..m])
    ensures ValidRun(c, r, events[..m + 1])
    ensures RunOf(c, r, events[..m + 1]) == RunOf(c, Observe(c, r, events[0]), events[1..][..m])
  {
    hide Good, Ready, Servable, Observe;
    assert events[..m + 1][0] == events[0] && events[..m + 1][1..] == events[1..][..m];
  }

  /** Every answer of a run is given by one of its messages. */
  lemma {:induction false} EachAnswerIsGiven(c: Config, r: Run, events: seq<Event>, n: nat) returns (m: nat)
    requires Good(c, r) && ValidRun(c, r, events) && |r.h.answers| <= n < |RunOf(c, r, events).h.answers|
    ensures AnsweredBy(c, r, events, m, n, RunOf(c, r, events).h.answers[n])
    decreases |events|
  {
    hide Good, Ready, Servable, Observe;
    FirstOfRun(c, r, events);
    NewAnswers(c, r, events[0]);
    var r' := Observe(c, r, events[0]);
    if n < |r'.h.answers| {
      m := 1;
      NoMessages(c, r');
      assert events[1..][..0] == [];
      OneMoreMessage(c, r, events, 0);
      RunOnlyAdds(c, r', events[1..]);
    } else {
      m := EachAnswerIsGiven(c, r', events[1..], n);
      OneMoreMessage(c, r, events, m);
      m := m + 1;
    }
  }

  /** Some agent can always push and pull: its buffer is empty and none of its pulls is blocked. */
  lemma SomeAgentIsNeverBlocked(c: Config, events: seq<Event>)
    requires Reaches(c, events)
    ensures var r := After(c, events);
            exists i :: 0 <= i < c.agentNum && r.s.versionBuffer[i] == [] &&
              forall q :: 0 <= q < |r.s.pullRequests| ==> r.s.pullRequests[q].id in c.idToIndex && c.idToIndex[r.s.pullRequests[q].id] != i
  {
    var r := After(c, events);
    AllAbove(r.s.versionBuffer, c.agentNum, 0);
    var i :| 0 <= i < c.agentNum && |r.s.versionBuffer[i]| == 0;
    assert r.s.versionBuffer[i] == [];
  }

  // ---- When no update is lost ----

  /** The update that a message pushes for agent i, if any. */
  function PushBy(c: Config, e: Event, i: nat): seq<KeyValueList> {
    if e.Push? && e.sender in c.idToIndex && c.idToIndex[e.sender] == i then [e.update] else []
  }

  /** The updates that agent i pushes in a run. */
  function PushesBy(c: Config, events: seq<Event>, i: nat): seq<KeyValueList> {
    if events == [] then [] else PushBy(c, events[0], i) + PushesBy(c, events[1..], i)
  }

  /** No update that agents push in the run is lost. */
  predicate NoneLost(c: Config, r: Run, events: seq<Event>)
    requires Good(c, r) && ValidRun(c, r, events)
  {
    forall i :: 0 <= i < c.agentNum ==> RunOf(c, r, events).h.pushes[i] == r.h.pushes[i] + PushesBy(c, events, i)
  }

  /** A push comes from an agent that has pushed fewer than `bound` updates more than any other. */
  predicate InStep(c: Config, counts: seq<nat>, e: Event)
    requires ValidConfig(c) && |counts| == c.agentNum
  {
    e.Push? && e.sender in c.idToIndex ==>
      forall j :: 0 <= j < c.agentNum ==> counts[c.idToIndex[e.sender]] < counts[j] + c.bound
  }

  function CountPush(c: Config, counts: seq<nat>, e: Event): (counts': seq<nat>)
    requires ValidConfig(c) && |counts| == c.agentNum
    ensures |counts'| == c.agentNum
    ensures forall i :: 0 <= i < c.agentNum ==> counts'[i] == counts[i] + |PushBy(c, e, i)|
  {
    if e.Push? && e.sender in c.idToIndex then
      counts[c.idToIndex[e.sender] := counts[c.idToIndex[e.sender]] + 1]
    else
      counts
  }

  /** Agents that have pushed `counts` updates so far stay in step during the rest of a run. This
      speaks only about who pushes when, not about what the server does. */
  predicate StayInStep(c: Config, counts: seq<nat>, events: seq<Event>)
    requires ValidConfig(c) && |counts| == c.agentNum
    decreases |events|
  {
    events == [] || (InStep(c, counts, events[0]) && StayInStep(c, CountPush(c, counts, events[0]), events[1..]))
  }

  function NoPushes(n: nat): (counts: seq<nat>)
    ensures |counts| == n && forall i :: 0 <= i < n ==> counts[i] == 0
  {
    if n == 0 then [] else NoPushes(n - 1) + [0]
  }

  predicate CountsPushes(c: Config, r: Run, counts: seq<nat>) {
    && |r.h.pushes| == |counts| == c.agentNum
    && forall i :: 0 <= i < c.agentNum ==> counts[i] == |r.h.pushes[i]|
  }

  /** The server has room for an update exactly when its agent is in step. */
  lemma RoomIff(c: Config, r: Run, counts: seq<nat>, e: Event)
    requires Good(c, r) && CountsPushes(c, r, counts) && e.Push? && e.sender in c.idToIndex
    ensures Accepted(c, r.s, e) <==> InStep(c, counts, e)
  {
    hide AnswersCorrect, ExactlyOnce, InOrder;
    var i := c.idToIndex[e.sender];
    AllAbove(r.s.versionBuffer, c.agentNum, 0);
    var j :| 0 <= j < c.agentNum && |r.s.versionBuffer[j]| == 0;
    assert counts[j] == r.s.bottomVersion;
    assert |r.s.versionBuffer[i]| == counts[i] - r.s.bottomVersion;
  }

  /** One message adds what it pushes if its agent is in step, and nothing otherwise. */
  lemma StepAdds(c: Config, r: Run, counts: seq<nat>, e: Event)
    requires Good(c, r) && Servable(c, r.s, e) && CountsPushes(c, r, counts)
    ensures var pushes := Observe(c, r, e).h.pushes;
            && |pushes| == c.agentNum
            && (forall i :: 0 <= i < c.agentNum ==> |pushes[i]| <= |r.h.pushes[i]| + |PushBy(c, e, i)|)
            && if InStep(c, counts, e)
               then forall i :: 0 <= i < c.agentNum ==> pushes[i] == r.h.pushes[i] + PushBy(c, e, i)
               else pushes == r.h.pushes && |PushBy(c, e, c.idToIndex[e.sender])| == 1
  {
    hide AnswersCorrect, ExactlyOnce, InOrder, StateFromPushes;
    if e.Push? && e.sender in c.idToIndex {
      RoomIff(c, r, counts, e);
    }
  }

  lemma FirstOfRun(c: Config, r: Run, events: seq<Event>)
    requires Good(c, r) && ValidRun(c, r, events) && events != []
    ensures Ready(c, r) && Servable(c, r.s, events[0])
    ensures Good(c, Observe(c, r, events[0])) && ValidRun(c, Observe(c, r, events[0]), events[1..])
    ensures RunOf(c, r, events) == RunOf(c, Observe(c, r, events[0]), events[1..])
  {
    StepKeepsGood(c, r, events[0]);
  }

  /** A run never accepts more than what is pushed. */
  lemma {:induction false} AcceptsAtMost(c: Config, r: Run, events: seq<Event>, i: nat)
    requires Good(c, r) && ValidRun(c, r, events) && i < c.agentNum
    ensures |RunOf(c, r, events).h.pushes| == |r.h.pushes| == c.agentNum
    ensures |RunOf(c, r, events).h.pushes[i]| <= |r.h.pushes[i]| + |PushesBy(c, events, i)|
    decreases |events|
  {
    hide Good, ValidRun, RunOf;
    if events == [] {
      NoMessages(c, r);
    } else {
      FirstOfRun(c, r, events);
      var counts := CountsOf(c, r);
      StepAdds(c, r, counts, events[0]);
      AcceptsAtMost(c, Observe(c, r, events[0]), events[1..], i);
    }
  }

  lemma NoMessages(c: Config, r: Run)
    requires Good(c, r)
    ensures ValidRun(c, r, []) && RunOf(c, r, []) == r && |r.h.pushes| == c.agentNum
  {
  }

  lemma CountsOf(c: Config, r: Run) returns (counts: seq<nat>)
    requires Good(c, r)
    ensures CountsPushes(c, r, counts)
  {
    counts := Lengths(r.h.pushes);
  }

  function Lengths(pushes: seq<seq<KeyValueList>>): (lengths: seq<nat>)
    ensures |lengths| == |pushes| && forall i :: 0 <= i < |pushes| ==> lengths[i] == |pushes[i]|
  {
    if pushes == [] then [] else Lengths(pushes[..|pushes| - 1]) + [|pushes[|pushes| - 1]|]
  }

  lemma TailPushes(c: Config, events: seq<Event>, i: nat)
    requires events != []
    ensures PushesBy(c, events, i) == PushBy(c, events[0], i) + PushesBy(c, events[1..], i)
  {
  }

  /** After a first message that lost nothing, nothing is lost in all exactly when nothing is lost in
      the rest. */
  lemma NoneLostAfter(c: Config, r: Run, events: seq<Event>)
    requires Good(c, r) && ValidRun(c, r, events) && events != []
    requires Ready(c, r) && Servable(c, r.s, events[0])
    requires var r' := Observe(c, r, events[0]);
             && Good(c, r') && ValidRun(c, r', events[1..]) && RunOf(c, r, events) == RunOf(c, r', events[1..])
             && |r.h.pushes| == |r'.h.pushes| == c.agentNum
             && forall i :: 0 <= i < c.agentNum ==> r'.h.pushes[i] == r.h.pushes[i] + PushBy(c, events[0], i)
    ensures NoneLost(c, r, events) <==> NoneLost(c, Observe(c, r, events[0]), events[1..])
  {
    hide Good, ValidRun, RunOf, Ready, Servable, Observe, PushesBy, PushBy;
    forall i | 0 <= i < c.agentNum
      ensures r.h.pushes[i] + PushesBy(c, events, i)
              == Observe(c, r, events[0]).h.pushes[i] + PushesBy(c, events[1..], i)
    {
      TailPushes(c, events, i);
      ConcatAssociates(r.h.pushes[i], PushBy(c, events[0], i), PushesBy(c, events[1..], i));
    }
  }

  /** A message whose update was dropped is never made up for. */
  lemma LostStaysLost(c: Config, r: Run, events: seq<Event>, i: nat)
    requires Good(c, r) && ValidRun(c, r, events) && events != [] && i < c.agentNum
    requires Ready(c, r) && Servable(c, r.s, events[0])
    requires Observe(c, r, events[0]).h.pushes == r.h.pushes && |PushBy(c, events[0], i)| == 1
    ensures !NoneLost(c, r, events)
  {
    hide Good, ValidRun, RunOf, Ready, Servable, Observe, PushBy;
    FirstOfRun(c, r, events);
    AcceptsAtMost(c, Observe(c, r, events[0]), events[1..], i);
    TailPushes(c, events, i);
    assert |RunOf(c, r, events).h.pushes[i]| < |r.h.pushes[i] + PushesBy(c, events, i)|;
  }

  /** The exact condition under which a push to a full buffer never happens: no update is lost in a run if
      and only if, at every push, its agent has pushed fewer than `bound` updates more than any
      other agent. */
  lemma {:induction false} NoneLostIff(c: Config, r: Run, events: seq<Event>, counts: seq<nat>)
    requires Good(c, r) && ValidRun(c, r, events) && ValidConfig(c) && CountsPushes(c, r, counts)
    ensures NoneLost(c, r, events) <==> StayInStep(c, counts, events)
    decreases |events|
  {
    hide Good, ValidRun, RunOf, InStep, Servable, Ready, Observe;
    if events == [] {
      NoMessages(c, r);
    } else {
      FirstOfRun(c, r, events);
      StepAdds(c, r, counts, events[0]);
      var r' := Observe(c, r, events[0]);
      if InStep(c, counts, events[0]) {
        NoneLostAfter(c, r, events);
        NoneLostIff(c, r', events[1..], CountPush(c, counts, events[0]));
      } else {
        LateSenderIsKnown(c, counts, events[0]);
        LostStaysLost(c, r, events, c.idToIndex[events[0].sender]);
      }
    }
  }

  lemma LateSenderIsKnown(c: Config, counts: seq<nat>, e: Event)
    requires ValidConfig(c) && |counts| == c.agentNum && !InStep(c, counts, e)
    ensures e.Push? && e.sender in c.idToIndex && c.idToIndex[e.sender] < c.agentNum
  {
  }

  /** From the start: what a server has accepted is all that was pushed exactly when the agents stayed
      in step. */
  lemma AllAcceptedIff(c: Config, events: seq<Event>)
    requires Reaches(c, events)
    ensures |After(c, events).h.pushes| == c.agentNum
    ensures (forall i :: 0 <= i < c.agentNum ==> After(c, events).h.pushes[i] == PushesBy(c, events, i))
            <==> StayInStep(c, NoPushes(c.agentNum), events)
  {
    hide ValidRun, PushesBy, StayInStep, AnswersCorrect, ExactlyOnce, InOrder;
    InitGood(c);
    NoneLostIff(c, InitRun(c), events, NoPushes(c.agentNum));
    forall i | 0 <= i < c.agentNum
      ensures InitRun(c).h.pushes[i] + PushesBy(c, events, i) == PushesBy(c, events, i)
    {
    }
    assert NoneLost(c, InitRun(c), events) <==>
           forall i :: 0 <= i < c.agentNum ==> After(c, events).h.pushes[i] == PushesBy(c, events, i);
  }

  /** After any run, the next push is dropped exactly when its agent is already `bound` accepted
      updates ahead of some agent. */
  lemma NextPushIsDroppedIff(c: Config, events: seq<Event>, e: Event)
    requires Reaches(c, events) && Servable(c, After(c, events).s, e) && e.Push? && e.sender in c.idToIndex
    ensures Ready(c, After(c, events))
    ensures var pushes := After(c, events).h.pushes;
            && |pushes| == c.agentNum
            && (Observe(c, After(c, events), e).h.pushes == pushes
                <==> exists j :: 0 <= j < c.agentNum && |pushes[c.idToIndex[e.sender]]| == |pushes[j]| + c.bound)
  {
    var r, i := After(c, events), c.idToIndex[e.sender];
    var counts := CountsOf(c, r);
    StepAdds(c, r, counts, e);
    forall j | 0 <= j < c.agentNum
      ensures |r.h.pushes[i]| <= |r.h.pushes[j]| + c.bound
    {
      AgentsStayWithinBound(c, events, i, j);
    }
    if InStep(c, counts, e) {
      assert |Observe(c, r, e).h.pushes[i]| == |r.h.pushes[i]| + 1;
    } else {
      var j :| 0 <= j < c.agentNum && !(counts[i] < counts[j] + c.bound);
    }
  }

  // ---- Agents that this server has answered since they last pushed ----

  /** This server has answered the sender of a push since its previous push. */
  predicate PushAwaited(c: Config, r: Run, e: Event)
    requires Good(c, r)
  {
    e.Push? && e.sender in c.idToIndex ==> r.h.ready[c.idToIndex[e.sender]]
  }

  /** Some answer from number n on goes to agent i. */
  predicate AnswersAgent(c: Config, h: History, n: nat, i: nat) {
    exists m :: n <= m < |h.answers| && h.answers[m].pull < |h.pulls| && h.pulls[h.answers[m].pull].id in c.idToIndex
                && AgentOf(c, h.pulls[h.answers[m].pull]) == i
  }

  lemma ReadyAfterRelease(c: Config, h: History, version: nat, i: nat)
    requires ValidConfig(c) && |h.pushes| == |h.ready| == c.agentNum && i < c.agentNum
    requires forall q :: 0 <= q < |h.queued| ==> h.queued[q] < |h.pulls| && h.pulls[h.queued[q]].id in c.idToIndex
    ensures |Released(c, h, version).ready| == c.agentNum
    ensures Released(c, h, version).ready[i] <==> h.ready[i] || AnswersAgent(c, Released(c, h, version), |h.answers|, i)
  {
    var h' := Released(c, h, version);
    assert forall q :: 0 <= q < |h.queued| ==> h'.answers[|h.answers| + q].pull == h.queued[q];
    if AnswersAgent(c, h', |h.answers|, i) {
      var m :| |h.answers| <= m < |h'.answers| && AgentOf(c, h'.pulls[h'.answers[m].pull]) == i;
      assert h.queued[m - |h.answers|] == h'.answers[m].pull;
    }
  }

  lemma ReadyAfterPush(c: Config, r: Run, e: Event, i: nat)
    requires Good(c, r) && Servable(c, r.s, e) && e.Push? && e.sender in c.idToIndex && i < c.agentNum
    ensures |Observe(c, r, e).h.ready| == c.agentNum
    ensures Observe(c, r, e).h.ready[i]
            <==> AnswersAgent(c, Observe(c, r, e).h, |r.h.answers|, i) || (r.h.ready[i] && PushBy(c, e, i) == [])
  {
    hide AnswersCorrect, ExactlyOnce, InOrder, Observe, FinishRound, Released, AnswersAgent, Servable;
    var r1, complete := PushInHalves(c, r, e);
    if complete {
      BlockedAreKnown(c, r1);
      ReadyAfterRelease(c, r1.h, r.s.bottomVersion + 1, i);
    } else {
      NobodyAnswered(c, r1.h, i);
    }
  }

  lemma NobodyAnswered(c: Config, h: History, i: nat)
    ensures !AnswersAgent(c, h, |h.answers|, i)
  {
  }

  /** The server has answered an agent since its last push exactly when this message answers it, or it was so
      before and this message is no push of the agent. */
  lemma ReadyIff(c: Config, r: Run, e: Event, i: nat)
    requires Good(c, r) && Servable(c, r.s, e) && i < c.agentNum
    ensures |r.h.ready| == |Observe(c, r, e).h.ready| == c.agentNum
    ensures Observe(c, r, e).h.ready[i]
            <==> AnswersAgent(c, Observe(c, r, e).h, |r.h.answers|, i) || (r.h.ready[i] && PushBy(c, e, i) == [])
  {
    hide AnswersCorrect, ExactlyOnce, InOrder, StateFromPushes, Step, Servable;
    if e.Push? && e.sender in c.idToIndex {
      ReadyAfterPush(c, r, e, i);
    } else if e.sender in c.idToIndex && Accepted(c, r.s, e) {
      var h := Observe(c, r, e).h;
      assert h.answers[|r.h.answers|].pull == |r.h.pulls| && h.pulls[|r.h.pulls|].id == e.sender;
    } else {
      NobodyAnswered(c, Observe(c, r, e).h, i);
    }
  }

  predicate Disciplined(c: Config, r: Run, events: seq<Event>)
    requires Good(c, r) && ValidRun(c, r, events)
    decreases |events|
  {
    events == [] ||
    (PushAwaited(c, r, events[0]) &&
     (StepKeepsGood(c, r, events[0]); Disciplined(c, Observe(c, r, events[0]), events[1..])))
  }

  lemma AwaitedIsInStep(c: Config, r: Run, counts: seq<nat>, e: Event)
    requires Good(c, r) && CountsPushes(c, r, counts) && PushAwaited(c, r, e)
    ensures InStep(c, counts, e)
  {
    hide AnswersCorrect, ExactlyOnce, InOrder;
    if e.Push? && e.sender in c.idToIndex {
      RoomIff(c, r, counts, e);
    }
  }

  lemma DisciplinedRest(c: Config, r: Run, events: seq<Event>)
    requires Good(c, r) && ValidRun(c, r, events) && Disciplined(c, r, events) && events != []
    ensures PushAwaited(c, r, events[0])
    ensures Ready(c, r) && Servable(c, r.s, events[0])
    ensures Good(c, Observe(c, r, events[0])) && ValidRun(c, Observe(c, r, events[0]), events[1..])
    ensures Disciplined(c, Observe(c, r, events[0]), events[1..])
  {
    StepKeepsGood(c, r, events[0]);
  }

  /** Such agents stay in step, so that by NoneLostIff nothing they push is lost. */
  lemma {:induction false} DisciplinedStayInStep(c: Config, r: Run, events: seq<Event>, counts: seq<nat>)
    requires Good(c, r) && ValidRun(c, r, events) && ValidConfig(c) && CountsPushes(c, r, counts)
    requires Disciplined(c, r, events)
    ensures StayInStep(c, counts, events)
    decreases |events|
  {
    hide Good, ValidRun, InStep, Servable, Ready, Observe, Disciplined, PushAwaited;
    if events != [] {
      DisciplinedRest(c, r, events);
      AwaitedIsInStep(c, r, counts, events[0]);
      StepAdds(c, r, counts, events[0]);
      DisciplinedStayInStep(c, Observe(c, r, events[0]), events[1..], CountPush(c, counts, events[0]));
    }
  }

  /** If this server answers every agent between its pushes, no update is lost. */
  lemma DisciplinedPushesAreAccepted(c: Config, r: Run, events: seq<Event>, i: nat)
    requires Good(c, r) && ValidRun(c, r, events) && Disciplined(c, r, events) && i < c.agentNum
    ensures RunOf(c, r, events).h.pushes[i] == r.h.pushes[i] + PushesBy(c, events, i)
  {
    var counts := CountsOf(c, r);
    DisciplinedStayInStep(c, r, events, counts);
    NoneLostIff(c, r, events, counts);
  }
}
