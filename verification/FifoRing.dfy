/** The message ring between one producing and one consuming thread, step by step: any
    interleaving of the two behaves like a bounded first-in first-out queue. */
module FifoRingModel {
  import opened Circle

  /** What a cell of the ring points to. */
  datatype Cell = Null | Block(bytes: string) | Dangling

  /** How far a call of Add has come. */
  datatype Producer =
    | ProducerIdle
    | AddCalled(message: string)
    | AddWaited(message: string)
    | AddIndexed(message: string, index: nat)
    | AddAllocated(message: string, index: nat)
    | AddCopied(message: string, index: nat)
    | AddSized(message: string, index: nat)
    | AddFaulted

  /** How far a call of Fetch has come; FetchEmpty is the return of -1. */
  datatype Consumer =
    | ConsumerIdle
    | FetchCalled
    | FetchWaited
    | FetchIndexed(index: nat)
    | FetchChecked(index: nat)
    | FetchSized(index: nat, len: int)
    | FetchCopied(index: nat, len: int, message: string)
    | FetchFreed(index: nat, len: int, message: string)
    | FetchCleared(len: int, message: string)
    | FetchEmpty
    | FetchFaulted

  /** The ring, both threads, and as history the messages added and what was fetched: the bytes
      and the returned length. */
  datatype State = State(
    cells: seq<Cell>, sizes: seq<int>, producePoint: nat, consumePoint: nat, empty: nat, full: nat,
    producer: Producer, consumer: Consumer,
    added: seq<string>, fetched: seq<(string, int)>)

  /** `junk` is what freshly allocated memory holds. */
  datatype Action = CallAdd(message: string) | AddStep(junk: string) | CallFetch | FetchStep

  function IndexTaken(p: Producer): nat {
    if p.AddIndexed? || p.AddAllocated? || p.AddCopied? || p.AddSized? then 1 else 0
  }

  /** 1 from the semaphore wait of an Add to its post. */
  function Adding(p: Producer): nat {
    if p.AddWaited? then 1 else IndexTaken(p)
  }

  function FetchIndexTaken(c: Consumer): nat {
    if c.FetchIndexed? || c.FetchChecked? || c.FetchSized? || c.FetchCopied? || c.FetchFreed? || c.FetchCleared? then 1
    else 0
  }

  function Fetching(c: Consumer): nat {
    if c.FetchWaited? then 1 else FetchIndexTaken(c)
  }

  predicate HasIndex(c: Consumer) {
    c.FetchIndexed? || c.FetchChecked? || c.FetchSized? || c.FetchCopied? || c.FetchFreed?
  }

  predicate Shape(n: nat, s: State) {
    && n >= 1 && |s.cells| == |s.sizes| == n && s.producePoint < n && s.consumePoint < n
    && (IndexTaken(s.producer) == 1 ==> s.producer.index < n)
    && (HasIndex(s.consumer) ==> s.consumer.index < n)
  }

  predicate Enabled(s: State, a: Action) {
    match a
    case CallAdd(_) => s.producer.ProducerIdle?
    case AddStep(junk) =>
      && !s.producer.ProducerIdle? && !s.producer.AddFaulted?
      && (s.producer.AddCalled? ==> s.empty > 0)
      && (s.producer.AddIndexed? ==> |junk| == |s.producer.message|)
    case CallFetch => s.consumer.ConsumerIdle?
    case FetchStep =>
      && !s.consumer.ConsumerIdle? && !s.consumer.FetchEmpty? && !s.consumer.FetchFaulted?
      && (s.consumer.FetchCalled? ==> s.full > 0)
  }

  /** One step of an Add. */
  function AddStepOf(n: nat, s: State, junk: string): (s': State)
    requires Shape(n, s) && Enabled(s, AddStep(junk))
    ensures Shape(n, s')
  {
    match s.producer
    case AddCalled(message) => s.(empty := s.empty - 1, producer := AddWaited(message))
    case AddWaited(message) =>
      s.(producePoint := (s.producePoint + 1) % n, producer := AddIndexed(message, s.producePoint))
    case AddIndexed(message, index) => s.(cells := s.cells[index := Block(junk)], producer := AddAllocated(message, index))
    case AddAllocated(message, index) =>
      if s.cells[index].Block? && |s.cells[index].bytes| >= |message| then
        s.(cells := s.cells[index := Block(message + s.cells[index].bytes[|message|..])],
           producer := AddCopied(message, index))
      else
        s.(producer := AddFaulted)
    case AddCopied(message, index) =>
      s.(sizes := s.sizes[index := |message|], producer := AddSized(message, index))
    case AddSized(message, index) =>
      s.(full := s.full + 1, producer := ProducerIdle, added := s.added + [message])
  }

  /** One step of a Fetch. */
  function FetchStepOf(n: nat, s: State): (s': State)
    requires Shape(n, s) && Enabled(s, FetchStep)
    ensures Shape(n, s')
  {
    match s.consumer
    case FetchCalled => s.(full := s.full - 1, consumer := FetchWaited)
    case FetchWaited =>
      s.(consumePoint := (s.consumePoint + 1) % n, consumer := FetchIndexed(s.consumePoint))
    case FetchIndexed(index) => s.(consumer := if s.cells[index].Null? then FetchEmpty else FetchChecked(index))
    case FetchChecked(index) => s.(consumer := FetchSized(index, s.sizes[index]))
    case FetchSized(index, len) =>
      if s.cells[index].Block? && 0 <= len <= |s.cells[index].bytes| then
        s.(consumer := FetchCopied(index, len, s.cells[index].bytes[..len]))
      else
        s.(consumer := FetchFaulted)
    case FetchCopied(index, len, message) =>
      if s.cells[index].Block? then
        s.(cells := s.cells[index := Dangling], consumer := FetchFreed(index, len, message))
      else
        s.(consumer := FetchFaulted)
    case FetchFreed(index, len, message) => s.(cells := s.cells[index := Null], consumer := FetchCleared(len, message))
    case FetchCleared(len, message) =>
      s.(empty := s.empty + 1, consumer := ConsumerIdle, fetched := s.fetched + [(message, len)])
  }

  function Step(n: nat, s: State, a: Action): (s': State)
    requires Shape(n, s) && Enabled(s, a)
    ensures Shape(n, s')
  {
    match a
    case CallAdd(message) => s.(producer := AddCalled(message))
    case AddStep(junk) => AddStepOf(n, s, junk)
    case CallFetch => s.(consumer := FetchCalled)
    case FetchStep => FetchStepOf(n, s)
  }

  // ---- The invariant ----

  /** Semaphores and indices follow from how many messages were added and fetched. */
  predicate Counted(n: nat, s: State)
    requires Shape(n, s)
  {
    var a, f := |s.added|, |s.fetched|;
    && f + s.full + Fetching(s.consumer) == a
    && a - f + s.empty + Adding(s.producer) == n
    && s.producePoint == (a + IndexTaken(s.producer)) % n
    && s.consumePoint == (f + FetchIndexTaken(s.consumer)) % n
  }

  /** Message number k lies in its cell, unless the consumer is just giving the cell back. */
  predicate Stored(n: nat, s: State, k: nat)
    requires Shape(n, s) && k < |s.added|
  {
    if k == |s.fetched| && s.consumer.FetchFreed? then s.cells[k % n] == Dangling
    else if k == |s.fetched| && s.consumer.FetchCleared? then s.cells[k % n] == Null
    else s.cells[k % n] == Block(s.added[k]) && s.sizes[k % n] == |s.added[k]|
  }

  predicate AllStored(n: nat, s: State)
    requires Shape(n, s)
  {
    forall k :: |s.fetched| <= k < |s.added| ==> Stored(n, s, k)
  }

  predicate ProducerOk(n: nat, s: State)
    requires Shape(n, s)
  {
    match s.producer
    case AddFaulted => false
    case AddIndexed(_, index) => index == |s.added| % n
    case AddAllocated(message, index) =>
      index == |s.added| % n && s.cells[index].Block? && |s.cells[index].bytes| == |message|
    case AddCopied(message, index) => index == |s.added| % n && s.cells[index] == Block(message)
    case AddSized(message, index) =>
      index == |s.added| % n && s.cells[index] == Block(message) && s.sizes[index] == |message|
    case _ => true
  }

  predicate ConsumerOk(n: nat, s: State)
    requires Shape(n, s) && Counted(n, s)
  {
    var f := |s.fetched|;
    match s.consumer
    case FetchEmpty => false
    case FetchFaulted => false
    case FetchIndexed(index) => index == f % n
    case FetchChecked(index) => index == f % n
    case FetchSized(index, len) => index == f % n && len == |s.added[f]|
    case FetchCopied(index, len, message) => index == f % n && len == |s.added[f]| && message == s.added[f]
    case FetchFreed(index, len, message) => index == f % n && len == |s.added[f]| && message == s.added[f]
    case FetchCleared(len, message) => len == |s.added[f]| && message == s.added[f]
    case _ => true
  }

  /** What was fetched is what was added, in the same order, with its own bytes and length. */
  predicate Delivered(s: State) {
    && |s.fetched| <= |s.added|
    && forall k :: 0 <= k < |s.fetched| ==> s.fetched[k] == (s.added[k], |s.added[k]|)
  }

  predicate Inv(n: nat, s: State) {
    Shape(n, s) && Counted(n, s) && Delivered(s) && AllStored(n, s) && ProducerOk(n, s) && ConsumerOk(n, s)
  }

  function Init(n: nat, cells: seq<Cell>, sizes: seq<int>): State {
    State(cells, sizes, 0, 0, n, 0, ProducerIdle, ConsumerIdle, [], [])
  }

  /** Whatever the cells hold at first: only the first one is cleared, and none needs to be. */
  lemma InitInv(n: nat, cells: seq<Cell>, sizes: seq<int>)
    requires n >= 1 && |cells| == |sizes| == n
    ensures Inv(n, Init(n, cells, sizes))
  {
    ModUnique(0, n, 0, 0);
  }

  // ---- Arithmetic of the window ----

  /** Fewer than n consecutive numbers apart, two numbers have different cells. */
  lemma WindowDistinct(n: nat, k: nat, l: nat)
    requires n >= 1 && k < l < k + n
    ensures k % n != l % n
  {
    if k % n == l % n {
      var q, q' := k / n, l / n;
      assert l - k == (q' - q) * n;
      if q' - q >= 1 {
        MulAtLeast(q' - q, n);
      } else {
        MulAtLeast(q - q' + 1, n);
      }
    }
  }

  lemma NextCell(n: nat, k: nat)
    requires n >= 1
    ensures (k % n + 1) % n == (k + 1) % n
  {
    var q, r := k / n, k % n;
    if r + 1 == n {
      assert k + 1 == (q + 1) * n;
      ModUnique(k + 1, n, q + 1, 0);
      ModUnique(r + 1, n, 1, 0);
    } else {
      ModUnique(k + 1, n, q, r + 1);
      ModUnique(r + 1, n, 0, r + 1);
    }
  }

  /** The cell that the producer works on holds no message that is still to be read. */
  lemma ProducerCellIsFree(n: nat, s: State, k: nat)
    requires Inv(n, s) && Adding(s.producer) == 1 && |s.fetched| <= k < |s.added|
    ensures k % n != |s.added| % n
  {
    WindowDistinct(n, k, |s.added|);
  }

  lemma ConsumerCellIsAlone(n: nat, s: State, k: nat)
    requires Inv(n, s) && |s.fetched| < k < |s.added|
    ensures k % n != |s.fetched| % n
  {
    WindowDistinct(n, |s.fetched|, k);
  }

  // ---- Every step keeps the invariant ----

  /** A step that writes at most the producer's own cell leaves the stored messages alone. */
  lemma StoredAfterAdd(n: nat, s: State, s': State)
    requires Inv(n, s) && Shape(n, s') && Adding(s.producer) == 1
    requires s'.added == s.added && s'.fetched == s.fetched && s'.consumer == s.consumer
    requires forall i :: 0 <= i < n && i != |s.added| % n ==> s'.cells[i] == s.cells[i] && s'.sizes[i] == s.sizes[i]
    ensures AllStored(n, s')
  {
    forall k | |s.fetched| <= k < |s.added|
      ensures Stored(n, s', k)
    {
      assert Stored(n, s, k);
      ProducerCellIsFree(n, s, k);
    }
  }

  lemma AddStepKeepsInv(n: nat, s: State, junk: string)
    requires Inv(n, s) && Enabled(s, AddStep(junk))
    ensures Inv(n, AddStepOf(n, s, junk))
  {
    var s' := AddStepOf(n, s, junk);
    NextCell(n, |s.added|);
    if Adding(s.producer) == 0 {
      assert forall k :: |s.fetched| <= k < |s.added| ==> Stored(n, s, k) ==> Stored(n, s', k);
    } else if s.producer.AddSized? {
      AddPosts(n, s, junk);
    } else {
      StoredAfterAdd(n, s, s');
      ConsumerKeepsOk(n, s, s');
    }
  }

  lemma ConsumerKeepsOk(n: nat, s: State, s': State)
    requires Inv(n, s) && Shape(n, s') && Counted(n, s')
    requires s'.consumer == s.consumer && s'.fetched == s.fetched && s.added <= s'.added
    ensures ConsumerOk(n, s')
  {
  }

  /** The last step of an Add makes its message readable. */
  lemma AddPosts(n: nat, s: State, junk: string)
    requires Inv(n, s) && Enabled(s, AddStep(junk)) && s.producer.AddSized?
    ensures Inv(n, AddStepOf(n, s, junk))
  {
    var s' := AddStepOf(n, s, junk);
    forall k | |s'.fetched| <= k < |s'.added|
      ensures Stored(n, s', k)
    {
      if k < |s.added| {
        assert Stored(n, s, k);
      }
    }
    ConsumerKeepsOk(n, s, s');
  }

  /** A step that writes at most the consumer's own cell leaves the later messages alone. */
  lemma StoredAfterFetch(n: nat, s: State, s': State)
    requires Inv(n, s) && Shape(n, s') && Fetching(s.consumer) == 1
    requires s'.added == s.added && s'.fetched == s.fetched
    requires forall i :: 0 <= i < n && i != |s.fetched| % n ==> s'.cells[i] == s.cells[i] && s'.sizes[i] == s.sizes[i]
    requires |s.fetched| < |s.added| ==> Stored(n, s', |s.fetched|)
    ensures AllStored(n, s')
  {
    forall k | |s.fetched| <= k < |s.added|
      ensures Stored(n, s', k)
    {
      assert Stored(n, s, k);
      if k > |s.fetched| {
        ConsumerCellIsAlone(n, s, k);
      }
    }
  }

  /** The consumer leaves the producer's cell alone. */
  lemma ProducerKeepsOk(n: nat, s: State, s': State)
    requires Inv(n, s) && Shape(n, s') && Fetching(s.consumer) == 1
    requires s'.producer == s.producer && s'.added == s.added
    requires forall i :: 0 <= i < n && i != |s.fetched| % n ==> s'.cells[i] == s.cells[i] && s'.sizes[i] == s.sizes[i]
    ensures ProducerOk(n, s')
  {
    if Adding(s.producer) == 1 {
      ProducerCellIsFree(n, s, |s.fetched|);
    }
  }

  lemma FetchStepKeepsInv(n: nat, s: State)
    requires Inv(n, s) && Enabled(s, FetchStep)
    ensures Inv(n, FetchStepOf(n, s))
  {
    var s' := FetchStepOf(n, s);
    NextCell(n, |s.fetched|);
    if s.consumer.FetchCalled? {
      assert forall k :: |s.fetched| <= k < |s.added| ==> Stored(n, s, k) ==> Stored(n, s', k);
    } else if s.consumer.FetchCleared? {
      FetchReturns(n, s);
    } else {
      assert Stored(n, s, |s.fetched|);
      StoredAfterFetch(n, s, s');
      ProducerKeepsOk(n, s, s');
    }
  }

  /** The last step of a Fetch returns the oldest unread message. */
  lemma FetchReturns(n: nat, s: State)
    requires Inv(n, s) && Enabled(s, FetchStep) && s.consumer.FetchCleared?
    ensures Inv(n, FetchStepOf(n, s))
  {
    var s' := FetchStepOf(n, s);
    forall k | |s'.fetched| <= k < |s'.added|
      ensures Stored(n, s', k)
    {
      assert Stored(n, s, k);
    }
  }

  lemma StepKeepsInv(n: nat, s: State, a: Action)
    requires Inv(n, s) && Enabled(s, a)
    ensures Inv(n, Step(n, s, a))
  {
    match a
    case AddStep(junk) => AddStepKeepsInv(n, s, junk);
    case FetchStep => FetchStepKeepsInv(n, s);
    case _ =>
      assert forall k :: |s.fetched| <= k < |s.added| ==> Stored(n, s, k) ==> Stored(n, Step(n, s, a), k);
  }

  // ---- Refinement of a bounded queue ----

  function Queue(s: State): seq<string>
    requires |s.fetched| <= |s.added|
  {
    s.added[|s.fetched|..]
  }

  /** Every step either leaves the queue alone, or is the post of an Add and appends its message
      to a queue that was not full, or is the post of a Fetch and returns and removes the head
      of a queue that was not empty. */
  lemma StepRefinesQueue(n: nat, s: State, a: Action)
    requires Inv(n, s) && Enabled(s, a)
    ensures var s' := Step(n, s, a);
            && Inv(n, s')
            && if a.AddStep? && s.producer.AddSized? then
                 |Queue(s)| < n && Queue(s') == Queue(s) + [s.producer.message] && s'.fetched == s.fetched
               else if a.FetchStep? && s.consumer.FetchCleared? then
                 && Queue(s) != [] && Queue(s') == Queue(s)[1..]
                 && s'.fetched == s.fetched + [(Queue(s)[0], |Queue(s)[0]|)]
               else
                 Queue(s') == Queue(s) && s'.fetched == s.fetched
  {
    hide AllStored, ProducerOk;
    StepKeepsInv(n, s, a);
  }

  // ---- Whole runs ----

  predicate Follows(n: nat, s: State, a: Action, s': State) {
    Shape(n, s) && Enabled(s, a) && s' == Step(n, s, a)
  }

  /** The states of any interleaving of the two threads, from any initial contents. */
  predicate Trace(n: nat, states: seq<State>, actions: seq<Action>) {
    && |states| == |actions| + 1
    && |states[0].cells| == |states[0].sizes| == n && states[0] == Init(n, states[0].cells, states[0].sizes)
    && forall p :: 0 <= p < |actions| ==> Follows(n, states[p], actions[p], states[p + 1])
  }

  lemma {:induction false} TraceInv(n: nat, states: seq<State>, actions: seq<Action>, p: nat)
    requires n >= 1 && Trace(n, states, actions) && p < |states|
    ensures Inv(n, states[p])
  {
    if p == 0 {
      InitInv(n, states[0].cells, states[0].sizes);
    } else {
      TraceInv(n, states, actions, p - 1);
      assert Follows(n, states[p - 1], actions[p - 1], states[p]);
      StepKeepsInv(n, states[p - 1], actions[p - 1]);
    }
  }

  /** At every moment of every run, the messages fetched so far are the first of those added, byte
      for byte and with their lengths; nothing read freed or unset memory, and no Fetch
      returned -1. */
  lemma FetchedIsPrefixOfAdded(n: nat, states: seq<State>, actions: seq<Action>, p: nat)
    requires n >= 1 && Trace(n, states, actions) && p < |states|
    ensures var s := states[p];
            && |s.fetched| <= |s.added| <= |s.fetched| + n
            && (forall k :: 0 <= k < |s.fetched| ==> s.fetched[k] == (s.added[k], |s.added[k]|))
            && !s.consumer.FetchEmpty? && !s.consumer.FetchFaulted? && !s.producer.AddFaulted?
  {
    TraceInv(n, states, actions, p);
  }

  /** The semaphores and the operations in flight always add up to the size of the ring. */
  lemma TokensAreConserved(n: nat, states: seq<State>, actions: seq<Action>, p: nat)
    requires n >= 1 && Trace(n, states, actions) && p < |states|
    ensures var s := states[p];
            s.empty + s.full + Adding(s.producer) + Fetching(s.consumer) == n
  {
    TraceInv(n, states, actions, p);
  }

  /** So the two threads never wait for each other. */
  lemma NeverBothBlocked(n: nat, states: seq<State>, actions: seq<Action>, p: nat)
    requires n >= 1 && Trace(n, states, actions) && p < |states|
    ensures var s := states[p];
            !(s.producer.AddCalled? && s.empty == 0 && s.consumer.FetchCalled? && s.full == 0)
  {
    TokensAreConserved(n, states, actions, p);
  }

  /** No message is overwritten before it is read: what an Add does to the cells never touches a
      cell that holds an unread message. */
  lemma UnreadIsNeverOverwritten(n: nat, states: seq<State>, actions: seq<Action>, p: nat, k: nat)
    requires n >= 1 && Trace(n, states, actions) && p < |actions| && actions[p].AddStep?
    requires |states[p].fetched| <= k < |states[p].added|
    ensures Shape(n, states[p]) && Shape(n, states[p + 1])
    ensures states[p + 1].cells[k % n] == states[p].cells[k % n]
    ensures states[p + 1].sizes[k % n] == states[p].sizes[k % n]
  {
    TraceInv(n, states, actions, p);
    assert Follows(n, states[p], actions[p], states[p + 1]);
    if Adding(states[p].producer) == 1 {
      ProducerCellIsFree(n, states[p], k);
    }
  }

  // ---- A thread that runs alone ----

  /** What a whole Add does to a ring that is not full. */
  function Added(n: nat, s: State, message: string): (s': State)
    requires Shape(n, s)
  {
    var index := s.producePoint;
    s.(cells := s.cells[index := Block(message)], sizes := s.sizes[index := |message|],
       producePoint := (index + 1) % n, empty := if s.empty > 0 then s.empty - 1 else 0, full := s.full + 1,
       added := s.added + [message])
  }

  /** What a whole Fetch does to a ring that is not empty. */
  function Fetched(n: nat, s: State): (s': State)
    requires Inv(n, s) && s.consumer.ConsumerIdle? && s.full > 0
  {
    var index := s.consumePoint;
    assert Stored(n, s, |s.fetched|);
    s.(cells := s.cells[index := Null],
       consumePoint := (index + 1) % n, full := s.full - 1, empty := s.empty + 1,
       fetched := s.fetched + [(s.cells[index].bytes[..s.sizes[index]], s.sizes[index])])
  }

  /** Added is what the steps of an Add come to when the consumer rests. */
  lemma AddRunsAlone(n: nat, s: State, message: string, junk: string) returns (states: seq<State>)
    requires Shape(n, s) && s.producer.ProducerIdle? && s.empty > 0 && |junk| == |message|
    ensures |states| == 8 && states[0] == s && states[7] == Added(n, s, message)
    ensures Follows(n, states[0], CallAdd(message), states[1])
    ensures forall p :: 1 <= p < 7 ==> Follows(n, states[p], AddStep(junk), states[p + 1])
  {
    var called := Step(n, s, CallAdd(message));
    var waited := AddStepOf(n, called, junk);
    var indexed := AddStepOf(n, waited, junk);
    var placed := AddStepOf(n, indexed, junk);
    var copied := AddStepOf(n, placed, junk);
    assert message + junk[|message|..] == message;
    var sized := AddStepOf(n, copied, junk);
    var done := AddStepOf(n, sized, junk);
    assert done.cells == s.cells[s.producePoint := Block(message)];
    states := [s, called, waited, indexed, placed, copied, sized, done];
  }

  lemma FetchLooks(n: nat, s: State) returns (states: seq<State>)
    requires Shape(n, s) && s.consumer.ConsumerIdle? && s.full > 0 && s.cells[s.consumePoint].Block?
    ensures |states| == 6 && states[0] == s
    ensures states[5] == s.(full := s.full - 1, consumePoint := (s.consumePoint + 1) % n,
                            consumer := FetchSized(s.consumePoint, s.sizes[s.consumePoint]))
    ensures Follows(n, states[0], CallFetch, states[1])
    ensures forall p :: 1 <= p < 5 ==> Follows(n, states[p], FetchStep, states[p + 1])
  {
    var called := Step(n, s, CallFetch);
    var waited := FetchStepOf(n, called);
    var indexed := FetchStepOf(n, waited);
    var checked := FetchStepOf(n, indexed);
    states := [s, called, waited, indexed, checked, FetchStepOf(n, checked)];
  }

  lemma FetchTakes(n: nat, s: State) returns (states: seq<State>)
    requires Shape(n, s) && s.consumer.FetchSized?
    requires s.cells[s.consumer.index].Block? && 0 <= s.consumer.len <= |s.cells[s.consumer.index].bytes|
    ensures |states| == 5 && states[0] == s
    ensures var index, len := s.consumer.index, s.consumer.len;
            states[4] == s.(cells := s.cells[index := Null], empty := s.empty + 1, consumer := ConsumerIdle,
                            fetched := s.fetched + [(s.cells[index].bytes[..len], len)])
    ensures forall p :: 0 <= p < 4 ==> Follows(n, states[p], FetchStep, states[p + 1])
  {
    var copied := FetchStepOf(n, s);
    var freed := FetchStepOf(n, copied);
    var cleared := FetchStepOf(n, freed);
    var done := FetchStepOf(n, cleared);
    assert done.cells == s.cells[s.consumer.index := Null];
    states := [s, copied, freed, cleared, done];
  }

  /** Fetched is what the steps of a Fetch come to when the producer rests. */
  lemma FetchRunsAlone(n: nat, s: State) returns (states: seq<State>)
    requires Inv(n, s) && s.consumer.ConsumerIdle? && s.full > 0
    ensures |states| == 10 && states[0] == s && states[9] == Fetched(n, s)
    ensures Follows(n, states[0], CallFetch, states[1])
    ensures forall p :: 1 <= p < 9 ==> Follows(n, states[p], FetchStep, states[p + 1])
  {
    assert Stored(n, s, |s.fetched|);
    var looks := FetchLooks(n, s);
    var takes := FetchTakes(n, looks[5]);
    states := looks[..5] + takes;
    forall p | 1 <= p < 9
      ensures Follows(n, states[p], FetchStep, states[p + 1])
    {
      if p < 5 {
        assert Follows(n, looks[p], FetchStep, looks[p + 1]);
      } else {
        assert Follows(n, takes[p - 5], FetchStep, takes[p - 4]);
      }
    }
  }

  lemma AddedKeepsInv(n: nat, s: State, message: string)
    requires Inv(n, s) && s.producer.ProducerIdle? && s.empty > 0
    ensures Inv(n, Added(n, s, message)) && Queue(Added(n, s, message)) == Queue(s) + [message]
  {
    var states := AddRunsAlone(n, s, message, message);
    StepsKeepInv(n, states, [CallAdd(message)] + [AddStep(message), AddStep(message), AddStep(message),
                                                  AddStep(message), AddStep(message), AddStep(message)], 7);
  }

  lemma FetchedKeepsInv(n: nat, s: State)
    requires Inv(n, s) && s.consumer.ConsumerIdle? && s.full > 0
    ensures Inv(n, Fetched(n, s)) && Queue(s) != [] && Queue(Fetched(n, s)) == Queue(s)[1..]
    ensures Fetched(n, s).fetched == s.fetched + [(Queue(s)[0], |Queue(s)[0]|)]
  {
    assert Stored(n, s, |s.fetched|);
    var states := FetchRunsAlone(n, s);
    StepsKeepInv(n, states, [CallFetch] + [FetchStep, FetchStep, FetchStep, FetchStep,
                                           FetchStep, FetchStep, FetchStep, FetchStep], 9);
  }

  lemma {:induction false} StepsKeepInv(n: nat, states: seq<State>, actions: seq<Action>, p: nat)
    requires p <= |actions| < |states| && Inv(n, states[0])
    requires forall q :: 0 <= q < |actions| ==> Follows(n, states[q], actions[q], states[q + 1])
    ensures Inv(n, states[p])
  {
    if p > 0 {
      StepsKeepInv(n, states, actions, p - 1);
      assert Follows(n, states[p - 1], actions[p - 1], states[p]);
      StepKeepsInv(n, states[p - 1], actions[p - 1]);
    }
  }

  // ---- The ring object ----

  class FifoRing {
    const ringSize: nat
    const ring: array<Cell>
    const dataSizes: array<int>
    var producePoint: nat
    var consumePoint: nat
    var emptySem: nat
    var fullSem: nat
    ghost var added: seq<string>
    ghost var fetched: seq<(string, int)>

    ghost function Snapshot(): State
      reads this, ring, dataSizes
    {
      State(ring[..], dataSizes[..], producePoint, consumePoint, emptySem, fullSem,
            ProducerIdle, ConsumerIdle, added, fetched)
    }

    ghost predicate Valid()
      reads this, ring, dataSizes
    {
      Inv(ringSize, Snapshot())
    }

    /** Only the first cell and the first two sizes are cleared; that is enough. */
    constructor Initialize(ringSize: nat, garbage: Cell)
      requires ringSize >= 1
      ensures Valid() && this.ringSize == ringSize && Queue(Snapshot()) == [] && emptySem == ringSize
      ensures fresh(ring) && fresh(dataSizes)
    {
      this.ringSize := ringSize;
      producePoint, consumePoint, emptySem, fullSem := 0, 0, ringSize, 0;
      ring := new Cell[ringSize](_ => garbage);
      dataSizes := new int[ringSize];
      added, fetched := [], [];
      new;
      ring[0] := Null;
      dataSizes[0] := 0;
      if ringSize > 1 {
        dataSizes[1] := 0;
      }
      InitInv(ringSize, ring[..], dataSizes[..]);
    }

    /** An Add that does not block. */
    method Add(message: string) returns (len: int)
      requires Valid() && emptySem > 0
      modifies this, ring, dataSizes
      ensures Valid() && Snapshot() == Added(ringSize, old(Snapshot()), message)
      ensures Queue(Snapshot()) == old(Queue(Snapshot())) + [message] && len == |message|
    {
      AddedKeepsInv(ringSize, Snapshot(), message);
      emptySem := emptySem - 1;
      var index := producePoint;
      producePoint := (producePoint + 1) % ringSize;
      ring[index] := Block(message);
      dataSizes[index] := |message|;
      fullSem := fullSem + 1;
      added := added + [message];
      len := |message|;
    }

    /** A Fetch that does not block. */
    method Fetch() returns (message: string, len: int)
      requires Valid() && fullSem > 0
      modifies this, ring, dataSizes
      ensures Valid() && Snapshot() == Fetched(ringSize, old(Snapshot()))
      ensures old(Queue(Snapshot())) == [message] + Queue(Snapshot()) && len == |message|
    {
      FetchedKeepsInv(ringSize, Snapshot());
      assert Stored(ringSize, Snapshot(), |fetched|);
      fullSem := fullSem - 1;
      var index := consumePoint;
      consumePoint := (consumePoint + 1) % ringSize;
      if ring[index].Null? {
        return "", -1;
      }
      len := dataSizes[index];
      message := ring[index].bytes[..len];
      ring[index] := Null;
      emptySem := emptySem + 1;
      fetched := fetched + [(message, len)];
    }
  }
}
