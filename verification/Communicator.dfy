/** The communicator of a sender: it frames messages into the ring, and its consuming thread takes
    them out again, finds the address and hands them to the socket. */
module CommunicatorModel {
  import opened Framing
  import opened Sequences
  import FR = FifoRingModel

  const NUL := '\0'

  function Min(a: nat, b: nat): nat {
    if a <= b then a else b
  }

  /** How much of a header fits into a buffer, with room for the final NUL. */
  function Cut(size: nat, d: int): nat
    requires size >= 1
  {
    Min(|Header(d)|, size - 1)
  }

  /** What Send puts into the ring. */
  function Framed(size: nat, d: int, payload: string): string
    requires size >= 1
  {
    Header(d)[..Cut(size, d)] + payload
  }

  /** The buffer of the consumer after a frame was copied over what it held before. */
  function Loaded(frame: string, before: string): string
    requires |frame| <= |before|
  {
    frame + before[|frame|..]
  }

  /** What the consumer takes for the length of the payload. */
  function PayloadLength(buffer: string, len: nat): int {
    var i := FirstComma(buffer, Places(buffer));
    if i < Places(buffer) then len - i - 1 else len
  }

  /** What the consumer takes for the payload, given what its buffer for payloads held before. */
  function Payload(buffer: string, len: nat, before: string): (message: string)
    requires len <= |buffer| == |before| && PayloadLength(buffer, len) >= 0
    ensures |message| == PayloadLength(buffer, len)
  {
    var i := FirstComma(buffer, Places(buffer));
    if i < Places(buffer) then buffer[i + 1..len] else before[..len]
  }

  /** The search stays within the buffer: it ends at a comma, or after 12 places that are there. */
  predicate Searchable(buffer: string) {
    |buffer| >= 12 || FirstComma(buffer, |buffer|) < |buffer|
  }

  /** The consumer gets out of a frame what went into it, whatever its buffers held before. */
  predicate TakenApart(frame: string, d: int, payload: string, before: string, beforePayload: string, previous: int)
    requires |frame| <= |before| == |beforePayload|
  {
    var buffer := Loaded(frame, before);
    && Searchable(buffer)
    && Scanned(buffer, previous) == d
    && PayloadLength(buffer, |frame|) == |payload|
    && Payload(buffer, |frame|, beforePayload) == payload
  }

  lemma WholeFrameIsTakenApart(size: nat, d: int, payload: string, before: string, beforePayload: string, previous: int)
    requires Int32(d) && |Header(d)| < size == |before| == |beforePayload| && |Header(d)| + |payload| <= size
    ensures Framed(size, d, payload) == Header(d) + payload
    ensures TakenApart(Framed(size, d, payload), d, payload, before, beforePayload, previous)
  {
    hide Scanned, FirstComma, Header;
    assert Header(d)[..|Header(d)|] == Header(d);
    var leftover := before[|Header(d)| + |payload|..];
    assert Loaded(Framed(size, d, payload), before) == Header(d) + payload + leftover;
    FrameRoundTrip(d, payload, leftover, previous);
    CommaIsFirst(d, payload, leftover);
  }

  /** The search of a whole frame stays in the buffer. */
  lemma CommaIsFirst(d: int, payload: string, leftover: string)
    requires Int32(d)
    ensures Searchable(Header(d) + payload + leftover)
  {
    var s := Header(d) + payload + leftover;
    assert s[|Header(d)| - 1] == ',';
  }

  /** A header that does not fit with its final NUL loses its comma, and then the length of the
      payload is wrong whatever follows. */
  lemma CutFrameHasWrongLength(size: nat, d: int, payload: string, before: string)
    requires Int32(d) && size >= 2 && |Header(d)| >= size == |before| && Cut(size, d) + |payload| <= size
    ensures |Framed(size, d, payload)| <= size
    ensures PayloadLength(Loaded(Framed(size, d, payload), before), |Framed(size, d, payload)|) != |payload|
  {
    CommaPosition(d);
    var buffer := Loaded(Framed(size, d, payload), before);
    assert forall k :: 0 <= k < size - 1 ==> buffer[k] == Header(d)[k] && buffer[k] != ',';
  }

  /** In every buffer of at least two characters: what Send frames for a 32-bit destination, Consume
      takes apart exactly if and only if the header fits into the buffer with its final NUL. */
  lemma FrameIsTakenApartIff(size: nat, d: int, payload: string, before: string, beforePayload: string, previous: int)
    requires Int32(d) && size >= 2 && size == |before| == |beforePayload| && Cut(size, d) + |payload| <= size
    ensures |Framed(size, d, payload)| <= size
    ensures TakenApart(Framed(size, d, payload), d, payload, before, beforePayload, previous) <==> |Header(d)| < size
  {
    if |Header(d)| < size {
      WholeFrameIsTakenApart(size, d, payload, before, beforePayload, previous);
    } else {
      CutFrameHasWrongLength(size, d, payload, before);
    }
  }

  // ---- The consuming thread behind the ring ----

  /** What the consuming thread keeps between two frames, and what it has handed on so far. */
  datatype Receiver = Receiver(buffer: string, payload: string, dst: int, handed: seq<(int, string)>)

  predicate Takeable(r: Receiver, frame: string) {
    && |frame| <= |r.buffer| == |r.payload|
    && Searchable(Loaded(frame, r.buffer))
    && PayloadLength(Loaded(frame, r.buffer), |frame|) >= 0
  }

  function Taken(r: Receiver, frame: string): (r': Receiver)
    requires Takeable(r, frame)
    ensures |r'.buffer| == |r'.payload| == |r.buffer|
  {
    var buffer := Loaded(frame, r.buffer);
    var message := Payload(buffer, |frame|, r.payload);
    Receiver(buffer, message + r.payload[|message|..], Scanned(buffer, r.dst),
             r.handed + [(Scanned(buffer, r.dst), message)])
  }

  /** The thread takes the fetched frames apart one after the other. Every frame of a sender is
      takeable, so the premise is only there to make the right-hand side meaningful. */
  predicate TakesApart(receivers: seq<Receiver>, fetched: seq<(string, int)>) {
    && |receivers| == |fetched| + 1
    && forall k :: 0 <= k < |fetched| ==>
         Takeable(receivers[k], fetched[k].0) ==> receivers[k + 1] == Taken(receivers[k], fetched[k].0)
  }

  /** The messages of a sender with headers that fit. */
  predicate Sendable(size: nat, sent: seq<(int, string)>) {
    forall k :: 0 <= k < |sent| ==>
      Int32(sent[k].0) && |Header(sent[k].0)| < size && |Header(sent[k].0)| + |sent[k].1| <= size
  }

  lemma TakenIsSent(size: nat, r: Receiver, frame: string, d: int, payload: string)
    requires Int32(d) && |Header(d)| < size && |Header(d)| + |payload| <= size && |r.buffer| == |r.payload| == size
    requires frame == Framed(size, d, payload)
    ensures Takeable(r, frame)
    ensures Taken(r, frame).handed == r.handed + [(d, payload)]
  {
    WholeFrameIsTakenApart(size, d, payload, r.buffer, r.payload, r.dst);
  }

  predicate FramesOf(size: nat, sent: seq<(int, string)>, fetched: seq<(string, int)>)
    requires size >= 1
  {
    |fetched| <= |sent| && forall k :: 0 <= k < |fetched| ==> fetched[k].0 == Framed(size, sent[k].0, sent[k].1)
  }

  /** One frame of the sender, taken apart. */
  lemma HandsOnOne(size: nat, sent: seq<(int, string)>, fetched: seq<(string, int)>, receivers: seq<Receiver>, k: nat)
    requires size >= 1 && Sendable(size, sent) && FramesOf(size, sent, fetched) && TakesApart(receivers, fetched)
    requires k < |fetched| && |receivers[k].buffer| == |receivers[k].payload| == size
    ensures k < |sent| && Takeable(receivers[k], fetched[k].0)
    ensures receivers[k + 1].handed == receivers[k].handed + [sent[k]]
    ensures |receivers[k + 1].buffer| == |receivers[k + 1].payload| == size
  {
    hide Framed, Takeable;
    TakenIsSent(size, receivers[k], fetched[k].0, sent[k].0, sent[k].1);
  }

  lemma {:induction false} HandsOn(size: nat, sent: seq<(int, string)>, fetched: seq<(string, int)>, receivers: seq<Receiver>,
                                   k: nat)
    requires size >= 1 && Sendable(size, sent) && FramesOf(size, sent, fetched) && TakesApart(receivers, fetched)
    requires |receivers[0].buffer| == |receivers[0].payload| == size && receivers[0].handed == [] && k <= |fetched|
    ensures receivers[k].handed == sent[..k] && |receivers[k].buffer| == |receivers[k].payload| == size
    ensures k < |fetched| ==> Takeable(receivers[k], fetched[k].0)
  {
    hide Sendable, Takeable, Taken;
    if k > 0 {
      HandsOn(size, sent, fetched, receivers, k - 1);
      HandsOnOne(size, sent, fetched, receivers, k - 1);
      TakeOneMore(sent, k - 1);
    }
    if k < |fetched| {
      HandsOnOne(size, sent, fetched, receivers, k);
    }
  }

  /** At every moment of every interleaving of the sending and the consuming thread, the destinations
      and payloads handed on are the first of those sent, in order and unchanged, and taking them
      apart never leaves the buffers. */
  lemma HandedOnIsPrefixOfSent(n: nat, states: seq<FR.State>, actions: seq<FR.Action>, p: nat,
                               size: nat, sent: seq<(int, string)>, receivers: seq<Receiver>)
    requires n >= 1 && FR.Trace(n, states, actions) && p < |states|
    requires size >= 1 && Sendable(size, sent) && |states[p].added| == |sent|
    requires forall k :: 0 <= k < |sent| ==> states[p].added[k] == Framed(size, sent[k].0, sent[k].1)
    requires TakesApart(receivers, states[p].fetched)
    requires |receivers[0].buffer| == |receivers[0].payload| == size && receivers[0].handed == []
    ensures |states[p].fetched| <= |sent|
    ensures receivers[|states[p].fetched|].handed == sent[..|states[p].fetched|]
    ensures forall k :: 0 <= k < |states[p].fetched| ==> Takeable(receivers[k], states[p].fetched[k].0)
  {
    hide FR.Trace, Framed, Takeable, Taken, Sendable;
    FR.FetchedIsPrefixOfAdded(n, states, actions, p);
    assert FramesOf(size, sent, states[p].fetched);
    HandsOn(size, sent, states[p].fetched, receivers, |states[p].fetched|);
    forall k | 0 <= k < |states[p].fetched|
      ensures Takeable(receivers[k], states[p].fetched[k].0)
    {
      HandsOn(size, sent, states[p].fetched, receivers, k);
    }
  }

  /** As long as the search has not met a comma, its next place is in the buffer. */
  lemma SearchStays(buffer: string, i: nat)
    requires Searchable(buffer) && i < 12 && i <= FirstComma(buffer, Places(buffer)) && i <= Places(buffer)
    ensures i < |buffer| && i < Places(buffer)
    ensures buffer[i] == ',' <==> i == FirstComma(buffer, Places(buffer))
  {
  }

  class Communicator {
    const bufferSize: nat
    const ring: FR.FifoRing
    // The consuming thread keeps its buffers and its destination from one message to the next.
    const mixMessage: array<char>
    const message: array<char>
    var dstId: int
    var idToAddr: map<int, string>
    // What was handed to the socket: address and bytes.
    var sent: seq<(string, string)>

    ghost predicate Valid()
      reads this, ring, ring.ring, ring.dataSizes
    {
      && ring.Valid()
      && mixMessage.Length == message.Length == bufferSize >= 1
      && mixMessage != message
    }

    constructor Initialize(ringSize: nat, bufferSize: nat, garbage: FR.Cell)
      requires ringSize >= 1 && bufferSize >= 1
      ensures Valid() && this.bufferSize == bufferSize && FR.Queue(ring.Snapshot()) == [] && idToAddr == map[] && sent == []
      ensures fresh(ring) && fresh(ring.ring) && fresh(ring.dataSizes) && fresh(mixMessage) && fresh(message)
    {
      this.bufferSize := bufferSize;
      var r := new FR.FifoRing.Initialize(ringSize, garbage);
      ring := r;
      mixMessage := new char[bufferSize];
      message := new char[bufferSize];
      dstId, idToAddr, sent := 0, map[], [];
    }

    /** snprintf: as much of the text as fits, then a NUL. */
    static method PrintInto(buffer: array<char>, text: string)
      requires buffer.Length >= 1
      modifies buffer
      ensures var n := Min(|text|, buffer.Length - 1); buffer[..n] == text[..n] && buffer[n] == NUL
    {
      var n := Min(|text|, buffer.Length - 1);
      for i := 0 to n
        invariant buffer[..i] == text[..i]
      {
        buffer[i] := text[i];
      }
      buffer[n] := NUL;
    }

    static method StringLength(buffer: array<char>, ghost bound: nat) returns (n: nat)
      requires bound < buffer.Length && buffer[bound] == NUL
      ensures n <= bound && buffer[n] == NUL && forall i :: 0 <= i < n ==> buffer[i] != NUL
    {
      n := 0;
      while buffer[n] != NUL
        invariant n <= bound && forall i :: 0 <= i < n ==> buffer[i] != NUL
        decreases bound - n
      {
        n := n + 1;
      }
    }

    static method CopyInto(buffer: array<char>, offset: nat, bytes: string)
      requires offset + |bytes| <= buffer.Length
      modifies buffer
      ensures buffer[..] == old(buffer[..offset]) + bytes + old(buffer[offset + |bytes|..])
    {
      for i := 0 to |bytes|
        invariant forall k :: 0 <= k < buffer.Length ==>
                    buffer[k] == if offset <= k < offset + i then bytes[k - offset] else old(buffer[k])
      {
        buffer[offset + i] := bytes[i];
      }
    }

    /** Builds a frame in a fresh buffer and says how long it is. */
    static method Mix(size: nat, dst: int, payload: string) returns (mix: array<char>, len: nat)
      requires size >= 1 && Cut(size, dst) + |payload| <= size
      ensures fresh(mix) && len <= mix.Length && mix[..len] == Framed(size, dst, payload)
    {
      mix := new char[size];
      var offset := PrintHeader(mix, dst);
      ghost var printed := mix[..];
      CopyInto(mix, offset, payload);
      len := offset + |payload|;
      assert mix[..len] == printed[..offset] + payload;
    }

    /** Prints the header and says how long it came out. */
    static method PrintHeader(mix: array<char>, dst: int) returns (offset: nat)
      requires mix.Length >= 1
      modifies mix
      ensures offset == Cut(mix.Length, dst) && mix[..offset] == Header(dst)[..offset]
    {
      PrintInto(mix, Header(dst));
      ghost var cut := Cut(mix.Length, dst);
      assert forall i :: 0 <= i < cut ==> mix[i] == mix[..cut][i] == Header(dst)[i] != NUL;
      offset := StringLength(mix, cut);
    }

    /** Frames a message and adds it to the ring, where there must be room for both not to block
        and not to overrun the buffer. */
    method Send(dst: int, payload: string) returns (len: int)
      requires Valid() && ring.emptySem > 0 && Cut(bufferSize, dst) + |payload| <= bufferSize
      modifies ring, ring.ring, ring.dataSizes
      ensures Valid() && FR.Queue(ring.Snapshot()) == old(FR.Queue(ring.Snapshot())) + [Framed(bufferSize, dst, payload)]
      ensures len == |Framed(bufferSize, dst, payload)|
    {
      var mix, size := Mix(bufferSize, dst, payload);
      len := ring.Add(mix[..size]);
    }

    /** sscanf("%d,"): the destination at the start of the buffer. */
    method ScanDestination()
      modifies `dstId
      ensures dstId == Scanned(mixMessage[..], old(dstId))
    {
      dstId := ScanInt(mixMessage, dstId);
    }

    static method SkipSpaces(buffer: array<char>) returns (i: nat)
      ensures i == AfterSpaces(buffer[..], 0)
    {
      i := 0;
      while i < buffer.Length && IsSpace(buffer[i])
        invariant i <= buffer.Length && AfterSpaces(buffer[..], 0) == AfterSpaces(buffer[..], i)
      {
        i := i + 1;
      }
    }

    static method ReadDigits(buffer: array<char>, from: nat) returns (end: nat, value: nat)
      requires from <= buffer.Length
      ensures end == AfterDigits(buffer[..], from) && value == Value(buffer[..][from..end])
    {
      ghost var s := buffer[..];
      end, value := from, 0;
      while end < buffer.Length && IsDigit(buffer[end])
        invariant from <= end <= buffer.Length && AfterDigits(s, from) == AfterDigits(s, end)
        invariant AllDigits(s[from..end]) && value == Value(s[from..end])
      {
        ValueGrows(s, from, end);
        value := value * 10 + DigitValue(buffer[end]);
        end := end + 1;
      }
    }

    static method ScanInt(buffer: array<char>, previous: int) returns (r: int)
      ensures r == Scanned(buffer[..], previous)
    {
      var start := SkipSpaces(buffer);
      var negative := start < buffer.Length && buffer[start] == '-';
      var from := start;
      if start < buffer.Length && (buffer[start] == '-' || buffer[start] == '+') {
        from := start + 1;
      }
      var end, value := ReadDigits(buffer, from);
      r := if end == from then previous else if negative then -(value as int) else value;
    }

    /** One round of the consuming thread: takes a frame out of the ring, splits it at the first
        comma, and sends it if the destination is known. */
    method Consume()
      requires Valid() && ring.fullSem > 0 && FR.Queue(ring.Snapshot()) != []
      requires var frame := FR.Queue(ring.Snapshot())[0];
               && |frame| <= bufferSize && Searchable(Loaded(frame, mixMessage[..]))
               && PayloadLength(Loaded(frame, mixMessage[..]), |frame|) >= 0
      modifies this, ring, ring.ring, ring.dataSizes, mixMessage, message
      ensures Valid() && FR.Queue(ring.Snapshot()) == old(FR.Queue(ring.Snapshot()))[1..] && idToAddr == old(idToAddr)
      ensures var frame := old(FR.Queue(ring.Snapshot()))[0];
              var buffer := Loaded(frame, old(mixMessage[..]));
              && dstId == Scanned(buffer, old(dstId))
              && sent == old(sent) + if dstId in idToAddr
                                     then [(idToAddr[dstId], Payload(buffer, |frame|, old(message[..])))] else []
    {
      ghost var payload := message[..];
      var frame, fetched := ring.Fetch();
      var len: nat := fetched;
      ghost var buffer := Loaded(frame, mixMessage[..]);
      CopyInto(mixMessage, 0, frame);
      assert mixMessage[..] == buffer;
      ScanDestination();
      len := SplitFrame(len, payload);
      if dstId in idToAddr {
        sent := sent + [(idToAddr[dstId], message[..len])];
      }
    }

    /** The search for the comma: copies what is behind it and corrects the length. */
    method SplitFrame(len: nat, ghost before: string) returns (n: nat)
      requires mixMessage.Length == message.Length && mixMessage != message && len <= mixMessage.Length
      requires Searchable(mixMessage[..]) && before == message[..] && PayloadLength(mixMessage[..], len) >= 0
      modifies message
      ensures n <= message.Length && n == PayloadLength(mixMessage[..], len)
      ensures message[..n] == Payload(mixMessage[..], len, before)
    {
      n := len;
      ghost var buffer := mixMessage[..];
      ghost var end := FirstComma(buffer, Places(buffer));
      for i := 0 to 12
        invariant n == len && message[..] == before && mixMessage[..] == buffer
        invariant i <= end && i <= Places(buffer)
      {
        SearchStays(buffer, i);
        if mixMessage[i] == ',' {
          n := len - i - 1;
          CopyInto(message, 0, mixMessage[i + 1..len]);
          assert message[..n] == buffer[i + 1..len];
          return;
        }
      }
    }

    method AddIdAddr(id: int, addr: string) returns (ok: bool)
      modifies `idToAddr
      ensures ok <==> id !in old(idToAddr)
      ensures idToAddr == if ok then old(idToAddr)[id := addr] else old(idToAddr)
    {
      if id in idToAddr {
        return false;
      }
      idToAddr := idToAddr[id := addr];
      return true;
    }

    /** `closed` is whether the socket could be closed; the entry goes either way. */
    method DeleteId(id: int, closed: bool) returns (ok: bool)
      modifies `idToAddr
      ensures ok <==> id in old(idToAddr) && closed
      ensures idToAddr == old(idToAddr) - {id}
    {
      ok := true;
      if id in idToAddr {
        ok := closed;
        idToAddr := idToAddr - {id};
      } else {
        ok := false;
      }
    }

    method CheckIdAddr(id: int, addr: string) returns (same: bool)
      ensures same <==> id in idToAddr && idToAddr[id] == addr
    {
      same := id in idToAddr && idToAddr[id] == addr;
    }

    /** How a reconfigured node brings its addresses up to date: afterwards every listed node has its
        listed address, whatever was known before and whichever sockets could be closed, and no
        entry of any other node has changed. */
    method RefreshAddresses(addresses: seq<string>, closed: seq<bool>)
      requires |closed| == |addresses|
      modifies `idToAddr
      ensures forall id :: 0 <= id < |addresses| ==> id in idToAddr && idToAddr[id] == addresses[id]
      ensures forall id :: id < 0 || |addresses| <= id ==>
                (id in idToAddr <==> id in old(idToAddr)) && (id in idToAddr ==> idToAddr[id] == old(idToAddr)[id])
    {
      for i := 0 to |addresses|
        invariant forall id :: 0 <= id < i ==> id in idToAddr && idToAddr[id] == addresses[id]
        invariant forall id :: id < 0 || i <= id ==>
                    (id in idToAddr <==> id in old(idToAddr)) && (id in idToAddr ==> idToAddr[id] == old(idToAddr)[id])
      {
        var same := CheckIdAddr(i, addresses[i]);
        if !same {
          var deleted := DeleteId(i, closed[i]);
          var added := AddIdAddr(i, addresses[i]);
        }
      }
    }
  }
}
