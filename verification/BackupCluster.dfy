/** Several servers that back each other up over first-in first-out connections. */
module BackupCluster {
  import opened Backups
  import opened Circle
  import opened Messages
  import opened ServerRuns
  import S = ServerState

  /** A backup request, or the parameters that answer one. The version is history only: the
      servers do not send it. */
  datatype Mail = Ask | Values(values: seq<real>, version: nat)

  /** The servers, their backup slots with the versions these were taken at, and what is in
      transit: mail[i][t] is sent by server i and not yet received by server t. */
  datatype Cluster = Cluster(
    runs: seq<Run>,
    backups: seq<seq<seq<real>>>,
    stamps: seq<seq<nat>>,
    mail: seq<seq<seq<Mail>>>)

  datatype Action = Client(at: nat, event: S.Event) | Deliver(sender: nat, receiver: nat)

  predicate ValidSetup(cs: seq<S.Config>, size: nat) {
    size < |cs| && forall i :: 0 <= i < |cs| ==> S.ValidConfig(cs[i])
  }

  // ---- One slot and the connection that feeds it ----

  /** The values are the parameters of version v, which is not in the future. */
  predicate Past(c: S.Config, pushes: seq<seq<KeyValueList>>, bottom: nat, v: nat, values: seq<real>)
    requires Covers(c, pushes, bottom)
  {
    v <= bottom && |values| == c.length
    && forall x :: 0 <= x < c.length ==> values[x] == ValueAfter(pushes, v, c.startKey + x)
  }

  /** All parameters in transit are past ones, oldest first, none older than the slot. */
  predicate Feeds(c: S.Config, pushes: seq<seq<KeyValueList>>, bottom: nat, stamp: nat, channel: seq<Mail>)
    requires Covers(c, pushes, bottom)
  {
    && (forall m :: 0 <= m < |channel| && channel[m].Values? ==>
          stamp <= channel[m].version && Past(c, pushes, bottom, channel[m].version, channel[m].values))
    && (forall m, m' :: 0 <= m < m' < |channel| && channel[m].Values? && channel[m'].Values? ==>
          channel[m].version <= channel[m'].version)
  }

  predicate NoValues(channel: seq<Mail>) {
    forall m :: 0 <= m < |channel| ==> channel[m].Ask?
  }

  predicate NoAsks(channel: seq<Mail>) {
    forall m :: 0 <= m < |channel| ==> channel[m].Values?
  }

  lemma PastStaysPast(c: S.Config, pushes: seq<seq<KeyValueList>>, bottom: nat,
                      pushes': seq<seq<KeyValueList>>, bottom': nat, v: nat, values: seq<real>)
    requires Covers(c, pushes, bottom) && Covers(c, pushes', bottom')
    requires Extends(pushes', pushes) && bottom <= bottom'
    requires Past(c, pushes, bottom, v, values)
    ensures Past(c, pushes', bottom', v, values)
  {
    forall x | 0 <= x < c.length
      ensures values[x] == ValueAfter(pushes', v, c.startKey + x)
    {
      ValueIsStable(pushes', pushes, v, c.startKey + x);
    }
  }

  lemma FeedsLater(c: S.Config, pushes: seq<seq<KeyValueList>>, bottom: nat,
                   pushes': seq<seq<KeyValueList>>, bottom': nat, stamp: nat, channel: seq<Mail>)
    requires Covers(c, pushes, bottom) && Covers(c, pushes', bottom')
    requires Extends(pushes', pushes) && bottom <= bottom'
    requires Feeds(c, pushes, bottom, stamp, channel)
    ensures Feeds(c, pushes', bottom', stamp, channel)
  {
    forall m | 0 <= m < |channel| && channel[m].Values?
      ensures Past(c, pushes', bottom', channel[m].version, channel[m].values)
    {
      PastStaysPast(c, pushes, bottom, pushes', bottom', channel[m].version, channel[m].values);
    }
  }

  lemma FeedsAfterSend(c: S.Config, pushes: seq<seq<KeyValueList>>, bottom: nat, stamp: nat, channel: seq<Mail>, mail: Mail)
    requires Covers(c, pushes, bottom) && Feeds(c, pushes, bottom, stamp, channel)
    requires mail.Values? ==> mail.version == bottom && stamp <= bottom && Past(c, pushes, bottom, bottom, mail.values)
    ensures Feeds(c, pushes, bottom, stamp, channel + [mail])
  {
  }

  lemma FeedsAfterReceive(c: S.Config, pushes: seq<seq<KeyValueList>>, bottom: nat, stamp: nat, channel: seq<Mail>)
    requires Covers(c, pushes, bottom) && Feeds(c, pushes, bottom, stamp, channel) && channel != []
    ensures Feeds(c, pushes, bottom, if channel[0].Values? then channel[0].version else stamp, channel[1..])
  {
  }

  // ---- Steps ----

  /** One backup request to each of the first `size` predecessors of server i. */
  function AskAll(row: seq<seq<Mail>>, i: nat, size: nat): (r: seq<seq<Mail>>)
    requires i < |row| && size < |row|
    ensures |r| == |row|
    ensures forall t :: 0 <= t < |row| ==> r[t] == if BackupSlot(i, t, |row|) < size then row[t] + [Ask] else row[t]
  {
    if size == 0 then
      row
    else
      var target := Predecessor(i, size, |row|);
      var r := AskAll(row, i, size - 1);
      assert forall t :: 0 <= t < |row| ==> (BackupSlot(i, t, |row|) == size - 1 <==> t == target);
      r[target := r[target] + [Ask]]
  }

  predicate Square(mail: seq<seq<seq<Mail>>>, n: nat) {
    |mail| == n && forall i :: 0 <= i < n ==> |mail[i]| == n
  }

  function SetRow(mail: seq<seq<seq<Mail>>>, n: nat, at: nat, row: seq<seq<Mail>>): (r: seq<seq<seq<Mail>>>)
    requires Square(mail, n) && at < n && |row| == n
    ensures Square(r, n) && forall i :: 0 <= i < n ==> r[i] == if i == at then row else mail[i]
  {
    mail[at := row]
  }

  function SetChannel(mail: seq<seq<seq<Mail>>>, n: nat, from: nat, to: nat, channel: seq<Mail>): (r: seq<seq<seq<Mail>>>)
    requires Square(mail, n) && from < n && to < n
    ensures Square(r, n)
    ensures forall i, t :: 0 <= i < n && 0 <= t < n ==> r[i][t] == if i == from && t == to then channel else mail[i][t]
  {
    SetRow(mail, n, from, mail[from][to := channel])
  }

  predicate Shape(cs: seq<S.Config>, size: nat, k: Cluster) {
    && |k.runs| == |k.backups| == |k.stamps| == |cs| && Square(k.mail, |cs|)
    && forall i :: 0 <= i < |cs| ==> |k.backups[i]| == |k.stamps[i]| == size
  }

  /** What holds between server i and the server t that it may back up. */
  predicate Linked(cs: seq<S.Config>, size: nat, k: Cluster, i: nat, t: nat)
    requires Shape(cs, size, k) && i < |cs| && t < |cs|
    requires Covers(cs[t], k.runs[t].h.pushes, k.runs[t].s.bottomVersion)
  {
    var slot := BackupSlot(i, t, |cs|);
    if slot < size then
      && Past(cs[t], k.runs[t].h.pushes, k.runs[t].s.bottomVersion, k.stamps[i][slot], k.backups[i][slot])
      && Feeds(cs[t], k.runs[t].h.pushes, k.runs[t].s.bottomVersion, k.stamps[i][slot], k.mail[t][i])
    else
      NoValues(k.mail[t][i]) && NoAsks(k.mail[i][t])
  }

  predicate AllCover(cs: seq<S.Config>, k: Cluster) {
    |k.runs| == |cs| && forall t :: 0 <= t < |cs| ==> Covers(cs[t], k.runs[t].h.pushes, k.runs[t].s.bottomVersion)
  }

  predicate AllGood(cs: seq<S.Config>, runs: seq<Run>) {
    |runs| == |cs| && forall t :: 0 <= t < |cs| ==> Good(cs[t], runs[t])
  }

  predicate ClusterGood(cs: seq<S.Config>, size: nat, k: Cluster) {
    && ValidSetup(cs, size)
    && Shape(cs, size, k)
    && AllGood(cs, k.runs)
    && AllCover(cs, k)
    && forall i, t :: 0 <= i < |cs| && 0 <= t < |cs| ==> Linked(cs, size, k, i, t)
  }

  predicate Arrived(cs: seq<S.Config>, k: Cluster, sender: nat, receiver: nat)
    requires Square(k.mail, |cs|)
  {
    sender < |cs| && receiver < |cs| && k.mail[sender][receiver] != []
  }

  predicate Enabled(cs: seq<S.Config>, size: nat, k: Cluster, a: Action)
    requires ClusterGood(cs, size, k)
  {
    match a
    case Client(at, event) => at < |cs| && S.Servable(cs[at], k.runs[at].s, event)
    case Deliver(sender, receiver) => Arrived(cs, k, sender, receiver)
  }

  function ClientStep(cs: seq<S.Config>, size: nat, k: Cluster, at: nat, event: S.Event): (k': Cluster)
    requires ClusterGood(cs, size, k) && Enabled(cs, size, k, Client(at, event))
    ensures Shape(cs, size, k')
  {
    var run := Observe(cs[at], k.runs[at], event);
    k.(runs := k.runs[at := run],
       mail := if run.s.bottomVersion == k.runs[at].s.bottomVersion then k.mail
               else SetRow(k.mail, |cs|, at, AskAll(k.mail[at], at, size)))
  }

  /** A request is answered with the current parameters. */
  function AnswerStep(cs: seq<S.Config>, size: nat, k: Cluster, sender: nat, receiver: nat): (k': Cluster)
    requires Shape(cs, size, k) && Arrived(cs, k, sender, receiver)
    ensures Shape(cs, size, k')
  {
    var received := SetChannel(k.mail, |cs|, sender, receiver, k.mail[sender][receiver][1..]);
    var reply := Values(k.runs[receiver].s.parameters, k.runs[receiver].s.bottomVersion);
    k.(mail := SetChannel(received, |cs|, receiver, sender, received[receiver][sender] + [reply]))
  }

  /** Parameters that arrive go into the slot computed from their sender. */
  function StoreStep(cs: seq<S.Config>, size: nat, k: Cluster, sender: nat, receiver: nat): (k': Cluster)
    requires Shape(cs, size, k) && Arrived(cs, k, sender, receiver) && k.mail[sender][receiver][0].Values?
    requires BackupSlot(receiver, sender, |cs|) < size
    ensures Shape(cs, size, k')
  {
    var slot := BackupSlot(receiver, sender, |cs|);
    var head := k.mail[sender][receiver][0];
    k.(mail := SetChannel(k.mail, |cs|, sender, receiver, k.mail[sender][receiver][1..]),
       backups := k.backups[receiver := k.backups[receiver][slot := head.values]],
       stamps := k.stamps[receiver := k.stamps[receiver][slot := head.version]])
  }

  function ClusterStep(cs: seq<S.Config>, size: nat, k: Cluster, a: Action): (k': Cluster)
    requires ClusterGood(cs, size, k) && Enabled(cs, size, k, a)
    ensures Shape(cs, size, k')
  {
    match a
    case Client(at, event) => ClientStep(cs, size, k, at, event)
    case Deliver(sender, receiver) =>
      if k.mail[sender][receiver][0].Ask? then
        AnswerStep(cs, size, k, sender, receiver)
      else
        assert Linked(cs, size, k, receiver, sender);
        StoreStep(cs, size, k, sender, receiver)
  }

  // ---- What one step does, told apart from how it is computed ----

  /** No connection but the one from `from` to `to` differs. */
  predicate OnlyChannel(mail: seq<seq<seq<Mail>>>, mail': seq<seq<seq<Mail>>>, n: nat, from: nat, to: nat)
    requires Square(mail, n) && Square(mail', n)
  {
    forall i, t :: 0 <= i < n && 0 <= t < n && (i != from || t != to) ==> mail'[i][t] == mail[i][t]
  }

  /** Parameters that arrive end up, unchanged, in the slot for the predecessor that sent them, and no other slot
      of any server changes. */
  lemma DeliveredValuesAreStored(cs: seq<S.Config>, size: nat, k: Cluster, sender: nat, receiver: nat) returns (j: nat)
    requires ClusterGood(cs, size, k) && Enabled(cs, size, k, Deliver(sender, receiver))
    requires k.mail[sender][receiver][0].Values?
    ensures 1 <= j <= size && sender == Predecessor(receiver, j, |cs|)
    ensures var k' := ClusterStep(cs, size, k, Deliver(sender, receiver));
            && k'.runs == k.runs
            && k'.backups[receiver][j - 1] == k.mail[sender][receiver][0].values
            && k'.stamps[receiver][j - 1] == k.mail[sender][receiver][0].version
            && (forall i, slot :: 0 <= i < |cs| && 0 <= slot < size && (i != receiver || slot != j - 1) ==>
                  k'.backups[i][slot] == k.backups[i][slot] && k'.stamps[i][slot] == k.stamps[i][slot])
            && k'.mail[sender][receiver] == k.mail[sender][receiver][1..]
            && OnlyChannel(k.mail, k'.mail, |cs|, sender, receiver)
  {
    hide Good;
    assert Linked(cs, size, k, receiver, sender);
    j := BackupSlot(receiver, sender, |cs|) + 1;
  }

  /** A request that arrives is answered with the current parameters, behind all that was sent before. */
  lemma DeliveredRequestIsAnswered(cs: seq<S.Config>, size: nat, k: Cluster, sender: nat, receiver: nat)
    requires ClusterGood(cs, size, k) && Enabled(cs, size, k, Deliver(sender, receiver))
    requires k.mail[sender][receiver][0].Ask?
    ensures var k' := ClusterStep(cs, size, k, Deliver(sender, receiver));
            && sender != receiver
            && k'.runs == k.runs && k'.backups == k.backups && k'.stamps == k.stamps
            && k'.mail[sender][receiver] == k.mail[sender][receiver][1..]
            && k'.mail[receiver][sender]
               == k.mail[receiver][sender] + [Values(k.runs[receiver].s.parameters, k.runs[receiver].s.bottomVersion)]
            && forall i, t :: 0 <= i < |cs| && 0 <= t < |cs| && !(i == sender && t == receiver) && !(i == receiver && t == sender) ==>
                 k'.mail[i][t] == k.mail[i][t]
  {
    hide Good;
    assert Linked(cs, size, k, sender, receiver);
    AskerBacksUp(cs, size, k, sender, receiver);
  }

  /** A server that completes a round asks each of its `size` nearest predecessors once more and nobody else; a
      step that completes none asks nobody. */
  lemma CompletedRoundAsks(cs: seq<S.Config>, size: nat, k: Cluster, at: nat, event: S.Event)
    requires ClusterGood(cs, size, k) && Enabled(cs, size, k, Client(at, event))
    ensures var k' := ClusterStep(cs, size, k, Client(at, event));
            && k'.backups == k.backups && k'.stamps == k.stamps
            && k'.runs == k.runs[at := Observe(cs[at], k.runs[at], event)]
            && var asks := k'.runs[at].s.bottomVersion != k.runs[at].s.bottomVersion;
               && (forall t :: 0 <= t < |cs| && (exists j :: 1 <= j <= size && t == Predecessor(at, j, |cs|)) ==>
                     k'.mail[at][t] == k.mail[at][t] + if asks then [Ask] else [])
               && forall i, t :: 0 <= i < |cs| && 0 <= t < |cs|
                                 && !(i == at && exists j :: 1 <= j <= size && t == Predecessor(at, j, |cs|))
                    ==> k'.mail[i][t] == k.mail[i][t]
  {
    hide Good, Linked;
    forall t | 0 <= t < |cs|
      ensures BackupSlot(at, t, |cs|) < size <==> exists j :: 1 <= j <= size && t == Predecessor(at, j, |cs|)
    {
      SlotIsPredecessor(at, t, |cs|, size);
    }
  }

  lemma SlotIsPredecessor(i: nat, t: nat, n: nat, size: nat)
    requires i < n && t < n && size < n
    ensures BackupSlot(i, t, n) < size <==> exists j :: 1 <= j <= size && t == Predecessor(i, j, n)
  {
    var slot := BackupSlot(i, t, n);
    if slot < size {
      assert 1 <= slot + 1 <= size && t == Predecessor(i, slot + 1, n);
    }
  }

  // ---- What a server's own step means for its past ----

  predicate CurrentPast(c: S.Config, r: Run) {
    && Covers(c, r.h.pushes, r.s.bottomVersion)
    && Past(c, r.h.pushes, r.s.bottomVersion, r.s.bottomVersion, r.s.parameters)
  }

  lemma CurrentIsPast(c: S.Config, r: Run)
    requires Good(c, r)
    ensures CurrentPast(c, r)
  {
  }

  lemma HistoryGrows(c: S.Config, r: Run, e: S.Event)
    requires Ready(c, r) && S.Servable(c, r.s, e) && StateFromPushes(c, r.s, r.h.pushes)
    ensures var r' := Observe(c, r, e);
            && Extends(r'.h.pushes, r.h.pushes)
            && r.s.bottomVersion <= r'.s.bottomVersion <= r.s.bottomVersion + 1
  {
    if e.Push? && e.sender in c.idToIndex {
      var r1, complete := PushInHalves(c, r, e);
    }
  }

  /** A server's step only adds to its history and moves on by at most one version. */
  lemma RunGrows(c: S.Config, r: Run, e: S.Event)
    requires Good(c, r) && S.Servable(c, r.s, e)
    ensures var r' := Observe(c, r, e);
            && Good(c, r')
            && Covers(c, r.h.pushes, r.s.bottomVersion) && Covers(c, r'.h.pushes, r'.s.bottomVersion)
            && Extends(r'.h.pushes, r.h.pushes)
            && r.s.bottomVersion <= r'.s.bottomVersion <= r.s.bottomVersion + 1
  {
    StepKeepsGood(c, r, e);
    HistoryGrows(c, r, e);
  }

  // ---- Every step keeps what holds between two servers ----

  /** A connection gained at most a request, and only one that its sender may make. */
  predicate MaybeAsked(cs: seq<S.Config>, size: nat, channel': seq<Mail>, channel: seq<Mail>, i: nat, t: nat)
    requires i < |cs| && t < |cs|
  {
    channel' == channel || (BackupSlot(i, t, |cs|) < size && channel' == channel + [Ask])
  }

  lemma LinkedAfterClient(cs: seq<S.Config>, size: nat, k: Cluster, k': Cluster, i: nat, t: nat)
    requires i < |cs| && t < |cs| && Shape(cs, size, k) && Shape(cs, size, k')
    requires Covers(cs[t], k.runs[t].h.pushes, k.runs[t].s.bottomVersion) && Linked(cs, size, k, i, t)
    requires Covers(cs[t], k'.runs[t].h.pushes, k'.runs[t].s.bottomVersion)
    requires Extends(k'.runs[t].h.pushes, k.runs[t].h.pushes) && k.runs[t].s.bottomVersion <= k'.runs[t].s.bottomVersion
    requires k'.backups == k.backups && k'.stamps == k.stamps
    requires MaybeAsked(cs, size, k'.mail[i][t], k.mail[i][t], i, t)
    requires MaybeAsked(cs, size, k'.mail[t][i], k.mail[t][i], t, i)
    ensures Linked(cs, size, k', i, t)
  {
    var slot := BackupSlot(i, t, |cs|);
    if slot < size {
      var r, r' := k.runs[t], k'.runs[t];
      PastStaysPast(cs[t], r.h.pushes, r.s.bottomVersion, r'.h.pushes, r'.s.bottomVersion,
                    k.stamps[i][slot], k.backups[i][slot]);
      FeedsLater(cs[t], r.h.pushes, r.s.bottomVersion, r'.h.pushes, r'.s.bottomVersion, k.stamps[i][slot], k.mail[t][i]);
      FeedsAfterSend(cs[t], r'.h.pushes, r'.s.bottomVersion, k.stamps[i][slot], k.mail[t][i], Ask);
    }
  }

  lemma ClientKeepsLinks(cs: seq<S.Config>, size: nat, k: Cluster, k': Cluster, at: nat)
    requires at < |cs| && size < |cs| && Shape(cs, size, k) && Shape(cs, size, k') && AllCover(cs, k) && AllCover(cs, k')
    requires forall i, t :: 0 <= i < |cs| && 0 <= t < |cs| ==> Linked(cs, size, k, i, t)
    requires Extends(k'.runs[at].h.pushes, k.runs[at].h.pushes)
    requires k.runs[at].s.bottomVersion <= k'.runs[at].s.bottomVersion
    requires k'.runs == k.runs[at := k'.runs[at]] && k'.backups == k.backups && k'.stamps == k.stamps
    requires k'.mail == k.mail || k'.mail == SetRow(k.mail, |cs|, at, AskAll(k.mail[at], at, size))
    ensures forall i, t :: 0 <= i < |cs| && 0 <= t < |cs| ==> Linked(cs, size, k', i, t)
  {
    forall i, t | 0 <= i < |cs| && 0 <= t < |cs|
      ensures Linked(cs, size, k', i, t)
    {
      assert Linked(cs, size, k, i, t);
      assert Extends(k'.runs[t].h.pushes, k.runs[t].h.pushes);
      LinkedAfterClient(cs, size, k, k', i, t);
    }
  }

  lemma OneRunChanges(cs: seq<S.Config>, runs: seq<Run>, at: nat, run: Run)
    requires at < |cs| && AllGood(cs, runs) && Good(cs[at], run)
    ensures AllGood(cs, runs[at := run])
  {
  }

  lemma ClientKeepsGood(cs: seq<S.Config>, size: nat, k: Cluster, at: nat, event: S.Event)
    requires ClusterGood(cs, size, k) && Enabled(cs, size, k, Client(at, event))
    ensures ClusterGood(cs, size, ClientStep(cs, size, k, at, event))
  {
    RunGrows(cs[at], k.runs[at], event);
    OneRunChanges(cs, k.runs, at, Observe(cs[at], k.runs[at], event));
    ClientKeepsLinks(cs, size, k, ClientStep(cs, size, k, at, event), at);
  }

  /** Only a server that backs up another one asks it, so nobody asks itself. */
  lemma AskerBacksUp(cs: seq<S.Config>, size: nat, k: Cluster, sender: nat, receiver: nat)
    requires sender < |cs| && receiver < |cs| && Shape(cs, size, k) && size < |cs|
    requires Covers(cs[receiver], k.runs[receiver].h.pushes, k.runs[receiver].s.bottomVersion)
    requires Linked(cs, size, k, sender, receiver)
    requires k.mail[sender][receiver] != [] && k.mail[sender][receiver][0].Ask?
    ensures BackupSlot(sender, receiver, |cs|) < size && sender != receiver
  {
  }

  lemma LinkedAfterAnswer(cs: seq<S.Config>, size: nat, k: Cluster, sender: nat, receiver: nat, i: nat, t: nat)
    requires size < |cs| && Shape(cs, size, k) && AllCover(cs, k) && i < |cs| && t < |cs|
    requires Arrived(cs, k, sender, receiver) && k.mail[sender][receiver][0].Ask?
    requires Linked(cs, size, k, sender, receiver) && Linked(cs, size, k, i, t)
    requires CurrentPast(cs[receiver], k.runs[receiver])
    ensures Linked(cs, size, AnswerStep(cs, size, k, sender, receiver), i, t)
  {
    AskerBacksUp(cs, size, k, sender, receiver);
    var slot := BackupSlot(i, t, |cs|);
    var pushes, bottom := k.runs[t].h.pushes, k.runs[t].s.bottomVersion;
    if slot < size {
      if t == sender && i == receiver {
        FeedsAfterReceive(cs[t], pushes, bottom, k.stamps[i][slot], k.mail[t][i]);
      } else if t == receiver && i == sender {
        FeedsAfterSend(cs[t], pushes, bottom, k.stamps[i][slot], k.mail[t][i], Values(k.runs[t].s.parameters, bottom));
      }
    }
  }

  lemma LinkedAfterStore(cs: seq<S.Config>, size: nat, k: Cluster, sender: nat, receiver: nat, i: nat, t: nat)
    requires size < |cs| && Shape(cs, size, k) && AllCover(cs, k) && i < |cs| && t < |cs|
    requires Arrived(cs, k, sender, receiver) && k.mail[sender][receiver][0].Values?
    requires Linked(cs, size, k, receiver, sender) && Linked(cs, size, k, i, t)
    ensures Linked(cs, size, StoreStep(cs, size, k, sender, receiver), i, t)
  {
    var slot := BackupSlot(i, t, |cs|);
    if i == receiver && t == sender {
      FeedsAfterReceive(cs[t], k.runs[t].h.pushes, k.runs[t].s.bottomVersion, k.stamps[i][slot], k.mail[t][i]);
    }
  }

  lemma DeliverKeepsGood(cs: seq<S.Config>, size: nat, k: Cluster, sender: nat, receiver: nat)
    requires ClusterGood(cs, size, k) && Enabled(cs, size, k, Deliver(sender, receiver))
    ensures ClusterGood(cs, size, ClusterStep(cs, size, k, Deliver(sender, receiver)))
  {
    var k' := ClusterStep(cs, size, k, Deliver(sender, receiver));
    CurrentIsPast(cs[receiver], k.runs[receiver]);
    assert Linked(cs, size, k, sender, receiver) && Linked(cs, size, k, receiver, sender);
    forall i, t | 0 <= i < |cs| && 0 <= t < |cs|
      ensures Linked(cs, size, k', i, t)
    {
      assert Linked(cs, size, k, i, t);
      if k.mail[sender][receiver][0].Ask? {
        LinkedAfterAnswer(cs, size, k, sender, receiver, i, t);
      } else {
        LinkedAfterStore(cs, size, k, sender, receiver, i, t);
      }
    }
  }

  lemma StepKeepsClusterGood(cs: seq<S.Config>, size: nat, k: Cluster, a: Action)
    requires ClusterGood(cs, size, k) && Enabled(cs, size, k, a)
    ensures ClusterGood(cs, size, ClusterStep(cs, size, k, a))
  {
    match a
    case Client(at, event) => ClientKeepsGood(cs, size, k, at, event);
    case Deliver(sender, receiver) => DeliverKeepsGood(cs, size, k, sender, receiver);
  }

  // ---- Whole runs of the cluster ----

  function InitRuns(cs: seq<S.Config>): (runs: seq<Run>)
    ensures |runs| == |cs| && forall t :: 0 <= t < |cs| ==> runs[t] == InitRun(cs[t])
  {
    if cs == [] then [] else InitRuns(cs[..|cs| - 1]) + [InitRun(cs[|cs| - 1])]
  }

  /** The first slots of server i, each as long as the segment of the server it is for. */
  function InitSlots(cs: seq<S.Config>, i: nat, size: nat): (slots: seq<seq<real>>)
    requires i < |cs| && size < |cs|
    ensures |slots| == size
    ensures forall j :: 1 <= j <= size ==> slots[j - 1] == S.ZeroParameters(cs[Predecessor(i, j, |cs|)].length)
  {
    if size == 0 then []
    else InitSlots(cs, i, size - 1) + [S.ZeroParameters(cs[Predecessor(i, size, |cs|)].length)]
  }

  function InitBackups(cs: seq<S.Config>, size: nat, n: nat): (backups: seq<seq<seq<real>>>)
    requires n <= |cs| && size < |cs|
    ensures |backups| == n && forall i :: 0 <= i < n ==> backups[i] == InitSlots(cs, i, size)
  {
    if n == 0 then [] else InitBackups(cs, size, n - 1) + [InitSlots(cs, n - 1, size)]
  }

  function Copies<T>(value: T, n: nat): (copies: seq<T>)
    ensures |copies| == n && forall i :: 0 <= i < n ==> copies[i] == value
  {
    if n == 0 then [] else Copies(value, n - 1) + [value]
  }

  function InitCluster(cs: seq<S.Config>, size: nat): (k: Cluster)
    requires size < |cs|
    ensures Shape(cs, size, k)
  {
    Cluster(InitRuns(cs), InitBackups(cs, size, |cs|), Copies<seq<nat>>(Copies<nat>(0, size), |cs|),
            Copies<seq<seq<Mail>>>(Copies<seq<Mail>>([], |cs|), |cs|))
  }

  lemma {:induction false} InitRunsGood(cs: seq<S.Config>, size: nat)
    requires ValidSetup(cs, size)
    ensures AllGood(cs, InitRuns(cs))
  {
    forall t | 0 <= t < |cs|
      ensures Good(cs[t], InitRuns(cs)[t])
    {
      InitGood(cs[t]);
    }
  }

  lemma {:induction false} InitLinked(cs: seq<S.Config>, size: nat, i: nat, t: nat)
    requires ValidSetup(cs, size) && i < |cs| && t < |cs|
    requires Covers(cs[t], InitRuns(cs)[t].h.pushes, 0)
    ensures Linked(cs, size, InitCluster(cs, size), i, t)
  {
    var slot := BackupSlot(i, t, |cs|);
    if slot < size {
      assert t == Predecessor(i, slot + 1, |cs|);
      assert InitSlots(cs, i, size)[slot] == S.ZeroParameters(cs[t].length);
    }
  }

  lemma {:induction false} InitClusterGood(cs: seq<S.Config>, size: nat)
    requires ValidSetup(cs, size)
    ensures ClusterGood(cs, size, InitCluster(cs, size))
  {
    InitRunsGood(cs, size);
    forall t | 0 <= t < |cs|
      ensures Covers(cs[t], InitRuns(cs)[t].h.pushes, 0)
    {
      CurrentIsPast(cs[t], InitRuns(cs)[t]);
    }
    forall i, t | 0 <= i < |cs| && 0 <= t < |cs|
      ensures Linked(cs, size, InitCluster(cs, size), i, t)
    {
      InitLinked(cs, size, i, t);
    }
  }

  /** One action leads from k to k'. Every reachable k is good, so the premise is only there to
      make the right-hand side meaningful. */
  predicate Follows(cs: seq<S.Config>, size: nat, k: Cluster, a: Action, k': Cluster) {
    ClusterGood(cs, size, k) ==> Enabled(cs, size, k, a) && k' == ClusterStep(cs, size, k, a)
  }

  /** The states of a run of the cluster, in whatever order servers work and messages arrive. */
  predicate Trace(cs: seq<S.Config>, size: nat, states: seq<Cluster>, actions: seq<Action>)
    requires ValidSetup(cs, size)
  {
    && |states| == |actions| + 1
    && states[0] == InitCluster(cs, size)
    && forall p :: 0 <= p < |actions| ==> Follows(cs, size, states[p], actions[p], states[p + 1])
  }

  lemma FollowerIsGood(cs: seq<S.Config>, size: nat, k: Cluster, a: Action, k': Cluster)
    requires ClusterGood(cs, size, k) && Follows(cs, size, k, a, k')
    ensures ClusterGood(cs, size, k')
  {
    StepKeepsClusterGood(cs, size, k, a);
  }

  lemma {:induction false} StatesAreGood(cs: seq<S.Config>, size: nat, states: seq<Cluster>, actions: seq<Action>, p: nat)
    requires ValidSetup(cs, size) && Trace(cs, size, states, actions) && p < |states|
    ensures ClusterGood(cs, size, states[p])
  {
    hide ClusterGood;
    if p == 0 {
      InitClusterGood(cs, size);
    } else {
      StatesAreGood(cs, size, states, actions, p - 1);
      FollowerIsGood(cs, size, states[p - 1], actions[p - 1], states[p]);
    }
  }

  /** An action moves no server by more than one version and never forgets an update. */
  lemma ActionGrows(cs: seq<S.Config>, size: nat, k: Cluster, a: Action, t: nat)
    requires ClusterGood(cs, size, k) && Enabled(cs, size, k, a) && t < |cs|
    ensures var r, r' := k.runs[t], ClusterStep(cs, size, k, a).runs[t];
            && Extends(r'.h.pushes, r.h.pushes)
            && r.s.bottomVersion <= r'.s.bottomVersion <= r.s.bottomVersion + 1
  {
    hide Linked, Good;
    if a.Client? && a.at == t {
      RunGrows(cs[t], k.runs[t], a.event);
    }
  }

  lemma ExtendsTransitive(a: seq<seq<KeyValueList>>, b: seq<seq<KeyValueList>>, c: seq<seq<KeyValueList>>)
    requires Extends(a, b) && Extends(b, c)
    ensures Extends(a, c)
  {
    forall i | 0 <= i < |a| ensures c[i] <= a[i] {
      assert c[i] <= b[i] && b[i] <= a[i];
    }
  }

  lemma StampGrows(cs: seq<S.Config>, size: nat, k: Cluster, a: Action, i: nat, slot: nat)
    requires ClusterGood(cs, size, k) && Enabled(cs, size, k, a) && i < |cs| && slot < size
    ensures k.stamps[i][slot] <= ClusterStep(cs, size, k, a).stamps[i][slot]
  {
    hide Good;
    if a.Deliver? {
      assert Linked(cs, size, k, a.receiver, a.sender);
    }
  }

  /** What one step of a run does to server t and to slot `slot` of server i. */
  lemma {:induction false} TraceGrows(cs: seq<S.Config>, size: nat, states: seq<Cluster>, actions: seq<Action>, p: nat,
                                      t: nat, slot: nat)
    requires ValidSetup(cs, size) && Trace(cs, size, states, actions) && p < |actions| && t < |cs|
    ensures Shape(cs, size, states[p]) && Shape(cs, size, states[p + 1])
    ensures Extends(states[p + 1].runs[t].h.pushes, states[p].runs[t].h.pushes)
    ensures states[p].runs[t].s.bottomVersion <= states[p + 1].runs[t].s.bottomVersion
            <= states[p].runs[t].s.bottomVersion + 1
    ensures slot < size ==> states[p].stamps[t][slot] <= states[p + 1].stamps[t][slot]
  {
    StatesAreGood(cs, size, states, actions, p);
    assert Follows(cs, size, states[p], actions[p], states[p + 1]);
    ActionGrows(cs, size, states[p], actions[p], t);
    if slot < size {
      StampGrows(cs, size, states[p], actions[p], t, slot);
    }
  }

  /** Every version up to the current one was the current one at some point of the run. */
  lemma {:induction false} VersionWasCurrent(cs: seq<S.Config>, size: nat, states: seq<Cluster>, actions: seq<Action>, p: nat,
                                             t: nat, v: nat) returns (m: nat)
    requires ValidSetup(cs, size) && Trace(cs, size, states, actions) && p < |states| && t < |cs|
    requires t < |states[p].runs| && v <= states[p].runs[t].s.bottomVersion
    ensures m <= p && Shape(cs, size, states[m])
    ensures states[m].runs[t].s.bottomVersion == v
    ensures Extends(states[p].runs[t].h.pushes, states[m].runs[t].h.pushes)
  {
    if v == states[p].runs[t].s.bottomVersion {
      StatesAreGood(cs, size, states, actions, p);
      m := p;
    } else if p > 0 {
      TraceGrows(cs, size, states, actions, p - 1, t, size);
      m := VersionWasCurrent(cs, size, states, actions, p - 1, t, v);
      ExtendsTransitive(states[p].runs[t].h.pushes, states[p - 1].runs[t].h.pushes, states[m].runs[t].h.pushes);
    }
  }

  lemma SamePast(c: S.Config, pushes: seq<seq<KeyValueList>>, bottom: nat, pushes': seq<seq<KeyValueList>>, bottom': nat,
                 v: nat, values: seq<real>, values': seq<real>)
    requires Covers(c, pushes, bottom) && Covers(c, pushes', bottom')
    requires Extends(pushes', pushes) && Past(c, pushes, bottom, v, values) && Past(c, pushes', bottom', v, values')
    ensures values == values'
  {
    forall x | 0 <= x < c.length
      ensures values[x] == values'[x]
    {
      ValueIsStable(pushes', pushes, v, c.startKey + x);
    }
  }

  /** In every reachable state, slot j - 1 of server i holds exactly what the parameters of its j-th
      predecessor were at some earlier point of the run: at the version with which it is stamped. */
  lemma {:induction false} BackupsArePast(cs: seq<S.Config>, size: nat, states: seq<Cluster>, actions: seq<Action>, p: nat, i: nat, j: nat)
    returns (m: nat)
    requires ValidSetup(cs, size) && Trace(cs, size, states, actions) && p < |states| && i < |cs| && 1 <= j <= size
    ensures m <= p && Shape(cs, size, states[m]) && Shape(cs, size, states[p])
    ensures var t := Predecessor(i, j, |cs|);
            && states[p].backups[i][j - 1] == states[m].runs[t].s.parameters
            && states[p].stamps[i][j - 1] == states[m].runs[t].s.bottomVersion <= states[p].runs[t].s.bottomVersion
  {
    hide Good, Trace, Feeds;
    var t: nat := Predecessor(i, j, |cs|);
    StatesAreGood(cs, size, states, actions, p);
    assert Linked(cs, size, states[p], i, t) && BackupSlot(i, t, |cs|) == j - 1;
    m := VersionWasCurrent(cs, size, states, actions, p, t, states[p].stamps[i][j - 1]);
    PastState(cs, size, states, actions, m, t);
    var r, r' := states[m].runs[t], states[p].runs[t];
    SamePast(cs[t], r.h.pushes, r.s.bottomVersion, r'.h.pushes, r'.s.bottomVersion, r.s.bottomVersion,
             r.s.parameters, states[p].backups[i][j - 1]);
  }

  lemma {:induction false} PastState(cs: seq<S.Config>, size: nat, states: seq<Cluster>, actions: seq<Action>, m: nat, t: nat)
    requires ValidSetup(cs, size) && Trace(cs, size, states, actions) && m < |states| && t < |cs|
    ensures Shape(cs, size, states[m]) && CurrentPast(cs[t], states[m].runs[t])
  {
    StatesAreGood(cs, size, states, actions, m);
    CurrentIsPast(cs[t], states[m].runs[t]);
  }

  /** Because connections keep the order, a slot never goes back to an older version. */
  lemma {:induction false} BackupsNeverGoBack(cs: seq<S.Config>, size: nat, states: seq<Cluster>, actions: seq<Action>,
                                              m: nat, p: nat, i: nat, slot: nat)
    requires ValidSetup(cs, size) && Trace(cs, size, states, actions) && m <= p < |states| && i < |cs| && slot < size
    ensures Shape(cs, size, states[m]) && Shape(cs, size, states[p])
    ensures states[m].stamps[i][slot] <= states[p].stamps[i][slot]
    decreases p
  {
    hide Follows, Good, ClusterGood;
    if m == p {
      PastState(cs, size, states, actions, p, i);
    } else {
      BackupsNeverGoBack(cs, size, states, actions, m, p - 1, i, slot);
      TraceGrows(cs, size, states, actions, p - 1, i, slot);
    }
  }

  // ---- Backups are recent ----

  /** Server i stores, with this action, parameters that server t sent. */
  predicate Stores(k: Cluster, a: Action, i: nat, t: nat) {
    && a == Deliver(t, i)
    && t < |k.mail| && i < |k.mail[t]|
    && k.mail[t][i] != [] && k.mail[t][i][0].Values?
  }

  /** How often server i has stored parameters of server t in the first p steps. */
  function StoredCount(states: seq<Cluster>, actions: seq<Action>, p: nat, i: nat, t: nat): nat
    requires p <= |actions| && |states| == |actions| + 1
  {
    if p == 0 then 0
    else StoredCount(states, actions, p - 1, i, t) + if Stores(states[p - 1], actions[p - 1], i, t) then 1 else 0
  }

  function CountAsks(channel: seq<Mail>): nat {
    if channel == [] then 0 else CountAsks(channel[..|channel| - 1]) + if channel[|channel| - 1].Ask? then 1 else 0
  }

  function CountValues(channel: seq<Mail>): nat {
    if channel == [] then 0 else CountValues(channel[..|channel| - 1]) + if channel[|channel| - 1].Values? then 1 else 0
  }

  lemma CountsAppend(channel: seq<Mail>, m: Mail)
    ensures CountAsks(channel + [m]) == CountAsks(channel) + if m.Ask? then 1 else 0
    ensures CountValues(channel + [m]) == CountValues(channel) + if m.Values? then 1 else 0
  {
    assert (channel + [m])[..|channel|] == channel;
  }

  lemma {:induction false} CountsOfRest(channel: seq<Mail>)
    requires channel != []
    ensures CountAsks(channel) == CountAsks(channel[1..]) + if channel[0].Ask? then 1 else 0
    ensures CountValues(channel) == CountValues(channel[1..]) + if channel[0].Values? then 1 else 0
  {
    var last := |channel| - 1;
    if last > 0 {
      CountsOfRest(channel[..last]);
      assert channel[..last][1..] == channel[1..][..last - 1];
    }
  }

  /** What matters between server i and a server t that it backs up: how often i has asked, the version of t,
      what is on the way to t and back, and the version in the slot. */
  datatype Link = Link(asked: nat, version: nat, out: seq<Mail>, back: seq<Mail>, stamp: nat)

  function LinkOf(cs: seq<S.Config>, size: nat, k: Cluster, i: nat, t: nat): Link
    requires Shape(cs, size, k) && i < |cs| && t < |cs| && BackupSlot(i, t, |cs|) < size
  {
    Link(k.runs[i].s.bottomVersion, k.runs[t].s.bottomVersion, k.mail[i][t], k.mail[t][i],
         k.stamps[i][BackupSlot(i, t, |cs|)])
  }

  /** Parameters were put at the end of a connection. */
  predicate Gained(channel: seq<Mail>, channel': seq<Mail>) {
    |channel'| == |channel| + 1 && channel' == channel + [channel'[|channel|]] && channel'[|channel|].Values?
  }

  /** What one step can do to a link when nothing is stored in the slot. */
  predicate Moves(l: Link, l': Link) {
    || (l.out != [] && l.out[0].Ask? && Gained(l.back, l'.back) && l'.back[|l.back|].version == l.version
        && l' == l.(out := l.out[1..], back := l'.back))
    || (l.out != [] && l.out[0].Values? && l' == l.(out := l.out[1..]))
    || (l.back != [] && l.back[0].Ask? && Gained(l.out, l'.out) && l' == l.(out := l'.out, back := l.back[1..]))
    || l' == l.(asked := l.asked + 1, out := l.out + [Ask])
    || (l.version <= l'.version && (l'.back == l.back || l'.back == l.back + [Ask])
        && l' == l.(version := l'.version, back := l'.back))
  }

  predicate TakesIn(l: Link, l': Link) {
    l.back != [] && l.back[0].Values? && l' == l.(back := l.back[1..], stamp := l.back[0].version)
  }

  lemma DeliverMovesLink(cs: seq<S.Config>, size: nat, k: Cluster, sender: nat, receiver: nat, i: nat, t: nat)
    requires ClusterGood(cs, size, k) && Enabled(cs, size, k, Deliver(sender, receiver))
    requires i < |cs| && t < |cs| && BackupSlot(i, t, |cs|) < size
    ensures var k' := ClusterStep(cs, size, k, Deliver(sender, receiver));
            if Stores(k, Deliver(sender, receiver), i, t)
            then TakesIn(LinkOf(cs, size, k, i, t), LinkOf(cs, size, k', i, t))
            else Moves(LinkOf(cs, size, k, i, t), LinkOf(cs, size, k', i, t))
  {
    hide Good, Linked, ClusterStep, AllCover, AllGood;
    if k.mail[sender][receiver][0].Ask? {
      DeliveredRequestIsAnswered(cs, size, k, sender, receiver);
    } else {
      var j := DeliveredValuesAreStored(cs, size, k, sender, receiver);
    }
  }

  /** What a server's own step puts on the two connections of a link. */
  lemma ClientTouches(cs: seq<S.Config>, size: nat, k: Cluster, at: nat, event: S.Event, i: nat, t: nat)
    requires ClusterGood(cs, size, k) && Enabled(cs, size, k, Client(at, event))
    requires i < |cs| && t < |cs| && BackupSlot(i, t, |cs|) < size
    ensures var k' := ClusterStep(cs, size, k, Client(at, event));
            var asks := k'.runs[at].s.bottomVersion != k.runs[at].s.bottomVersion;
            && k'.stamps == k.stamps && k'.runs == k.runs[at := Observe(cs[at], k.runs[at], event)]
            && k'.mail[i][t] == k.mail[i][t] + (if i == at && asks then [Ask] else [])
            && (k'.mail[t][i] == k.mail[t][i] || (t == at && k'.mail[t][i] == k.mail[t][i] + [Ask]))
  {
    hide Good, Linked, ClusterStep, AllCover, AllGood, Observe;
    CompletedRoundAsks(cs, size, k, at, event);
    SlotIsPredecessor(i, t, |cs|, size);
  }

  lemma ClientMovesLink(cs: seq<S.Config>, size: nat, k: Cluster, at: nat, event: S.Event, i: nat, t: nat)
    requires ClusterGood(cs, size, k) && Enabled(cs, size, k, Client(at, event))
    requires i < |cs| && t < |cs| && BackupSlot(i, t, |cs|) < size
    ensures var k' := ClusterStep(cs, size, k, Client(at, event));
            Moves(LinkOf(cs, size, k, i, t), LinkOf(cs, size, k', i, t))
  {
    hide Good, Linked, ClusterStep, AllCover, Observe, Gained;
    ClientTouches(cs, size, k, at, event, i, t);
    RunGrows(cs[at], k.runs[at], event);
  }

  /** Every request is on its way, or answered by parameters on their way, or answered by stored ones. */
  predicate Accounted(l: Link, stored: nat) {
    l.asked == stored + CountAsks(l.out) + CountValues(l.back)
  }

  /** From the n-th reply on, no parameters older than version v arrive; and once it is stored, the slot is no
      older either. */
  predicate Recent(l: Link, stored: nat, n: nat, v: nat) {
    && v <= l.version
    && (stored >= n ==> v <= l.stamp)
    && forall m :: 0 <= m < |l.back| && l.back[m].Values? && stored + CountValues(l.back[..m]) + 1 >= n ==> v <= l.back[m].version
  }

  lemma MovesKeepsAccounted(l: Link, l': Link, stored: nat)
    requires Accounted(l, stored) && Moves(l, l')
    ensures Accounted(l', stored)
  {
    hide CountAsks, CountValues;
    if l.out != [] {
      CountsOfRest(l.out);
    }
    if l.back != [] {
      CountsOfRest(l.back);
    }
    if |l'.out| > |l.out| {
      CountsAppend(l.out, l'.out[|l.out|]);
    }
    if |l'.back| > |l.back| {
      CountsAppend(l.back, l'.back[|l.back|]);
    }
  }

  lemma TakesInKeepsAccounted(l: Link, l': Link, stored: nat)
    requires Accounted(l, stored) && TakesIn(l, l')
    ensures Accounted(l', stored + 1)
  {
    CountsOfRest(l.back);
  }

  lemma RestIsRecent(l: Link, stored: nat, stored': nat, n: nat, v: nat)
    requires Recent(l, stored, n, v) && l.back != []
    requires stored' == stored + if l.back[0].Values? then 1 else 0
    ensures forall m :: 0 <= m < |l.back[1..]| && l.back[1..][m].Values? && stored' + CountValues(l.back[1..][..m]) + 1 >= n ==>
              v <= l.back[1..][m].version
  {
    forall m | 0 <= m < |l.back[1..]| && l.back[1..][m].Values? && stored' + CountValues(l.back[1..][..m]) + 1 >= n
      ensures v <= l.back[1..][m].version
    {
      CountsOfRest(l.back[..m + 1]);
      assert l.back[..m + 1][1..] == l.back[1..][..m];
    }
  }

  lemma MovesKeepsRecent(l: Link, l': Link, stored: nat, n: nat, v: nat)
    requires Recent(l, stored, n, v) && Moves(l, l')
    ensures Recent(l', stored, n, v)
  {
    hide CountValues;
    if l.back != [] && l'.back == l.back[1..] && l.back[0].Ask? {
      RestIsRecent(l, stored, stored, n, v);
    } else {
      assert forall m :: 0 <= m < |l.back| ==> l'.back[m] == l.back[m] && l'.back[..m] == l.back[..m];
    }
  }

  lemma TakesInKeepsRecent(l: Link, l': Link, stored: nat, n: nat, v: nat)
    requires Recent(l, stored, n, v) && TakesIn(l, l')
    ensures Recent(l', stored + 1, n, v)
  {
    assert CountValues(l.back[..0]) == 0;
    RestIsRecent(l, stored, stored + 1, n, v);
  }

  lemma {:induction false} CountGrows(channel: seq<Mail>, m: nat)
    requires m <= |channel|
    ensures CountValues(channel[..m]) <= CountValues(channel)
  {
    if m < |channel| {
      CountGrows(channel[..|channel| - 1], m);
      assert channel[..|channel| - 1][..m] == channel[..m];
    } else {
      assert channel[..m] == channel;
    }
  }

  /** No reply to the next request is on its way before it is made. */
  lemma NextRequestIsOpen(l: Link, stored: nat)
    requires Accounted(l, stored)
    ensures Recent(l, stored, l.asked + 1, l.version)
  {
    forall m | 0 <= m < |l.back| && l.back[m].Values?
      ensures stored + CountValues(l.back[..m]) + 1 <= l.asked
    {
      CountGrows(l.back, m + 1);
      assert l.back[..m + 1] == l.back[..m] + [l.back[m]];
      CountsAppend(l.back[..m], l.back[m]);
    }
  }

  /** One step of a run, as the link between two servers sees it. */
  lemma TraceMovesLink(cs: seq<S.Config>, size: nat, states: seq<Cluster>, actions: seq<Action>, p: nat, i: nat, t: nat)
    requires ValidSetup(cs, size) && Trace(cs, size, states, actions) && p < |actions|
    requires i < |cs| && t < |cs| && BackupSlot(i, t, |cs|) < size
    ensures Shape(cs, size, states[p]) && Shape(cs, size, states[p + 1])
    ensures var l, l' := LinkOf(cs, size, states[p], i, t), LinkOf(cs, size, states[p + 1], i, t);
            if Stores(states[p], actions[p], i, t) then TakesIn(l, l') else Moves(l, l')
  {
    hide ClusterStep, Moves, TakesIn, LinkOf;
    StatesAreGood(cs, size, states, actions, p);
    assert Follows(cs, size, states[p], actions[p], states[p + 1]);
    match actions[p]
    case Client(at, event) => ClientMovesLink(cs, size, states[p], at, event, i, t);
    case Deliver(sender, receiver) => DeliverMovesLink(cs, size, states[p], sender, receiver, i, t);
  }

  lemma InitIsAccounted(cs: seq<S.Config>, size: nat, i: nat, t: nat)
    requires ValidSetup(cs, size) && i < |cs| && t < |cs| && BackupSlot(i, t, |cs|) < size
    ensures Accounted(LinkOf(cs, size, InitCluster(cs, size), i, t), 0)
  {
  }

  lemma {:induction false} TraceIsAccounted(cs: seq<S.Config>, size: nat, states: seq<Cluster>, actions: seq<Action>, p: nat,
                                            i: nat, t: nat)
    requires ValidSetup(cs, size) && Trace(cs, size, states, actions) && p < |states|
    requires i < |cs| && t < |cs| && BackupSlot(i, t, |cs|) < size
    ensures Shape(cs, size, states[p])
    ensures Accounted(LinkOf(cs, size, states[p], i, t), StoredCount(states, actions, p, i, t))
  {
    hide Moves, TakesIn, LinkOf, Accounted, Stores, Follows, InitCluster;
    if p == 0 {
      InitIsAccounted(cs, size, i, t);
    } else {
      TraceIsAccounted(cs, size, states, actions, p - 1, i, t);
      TraceMovesLink(cs, size, states, actions, p - 1, i, t);
      var l, l' := LinkOf(cs, size, states[p - 1], i, t), LinkOf(cs, size, states[p], i, t);
      if Stores(states[p - 1], actions[p - 1], i, t) {
        TakesInKeepsAccounted(l, l', StoredCount(states, actions, p - 1, i, t));
      } else {
        MovesKeepsAccounted(l, l', StoredCount(states, actions, p - 1, i, t));
      }
    }
  }

  lemma {:induction false} TraceStaysRecent(cs: seq<S.Config>, size: nat, states: seq<Cluster>, actions: seq<Action>,
                                            p: nat, q: nat, i: nat, t: nat)
    requires ValidSetup(cs, size) && Trace(cs, size, states, actions) && p <= q < |states|
    requires i < |cs| && t < |cs| && BackupSlot(i, t, |cs|) < size
    ensures Shape(cs, size, states[p]) && Shape(cs, size, states[q])
    ensures var l, l' := LinkOf(cs, size, states[p], i, t), LinkOf(cs, size, states[q], i, t);
            Recent(l', StoredCount(states, actions, q, i, t), l.asked + 1, l.version)
    decreases q
  {
    hide Moves, TakesIn, LinkOf, Accounted, Recent, Stores, Follows, InitCluster;
    if p == q {
      TraceIsAccounted(cs, size, states, actions, p, i, t);
      NextRequestIsOpen(LinkOf(cs, size, states[p], i, t), StoredCount(states, actions, p, i, t));
    } else {
      TraceStaysRecent(cs, size, states, actions, p, q - 1, i, t);
      TraceMovesLink(cs, size, states, actions, q - 1, i, t);
      var start := LinkOf(cs, size, states[p], i, t);
      var l, l' := LinkOf(cs, size, states[q - 1], i, t), LinkOf(cs, size, states[q], i, t);
      if Stores(states[q - 1], actions[q - 1], i, t) {
        TakesInKeepsRecent(l, l', StoredCount(states, actions, q - 1, i, t), start.asked + 1, start.version);
      } else {
        MovesKeepsRecent(l, l', StoredCount(states, actions, q - 1, i, t), start.asked + 1, start.version);
      }
    }
  }

  /** Server i has sent its j-th predecessor one request per completed round, and in every reachable state each of
      them is still on its way, or its answer is, or its answer has been stored. */
  lemma {:induction false} RequestsAreAccountedFor(cs: seq<S.Config>, size: nat, states: seq<Cluster>, actions: seq<Action>,
                                                   p: nat, i: nat, j: nat)
    requires ValidSetup(cs, size) && Trace(cs, size, states, actions) && p < |states| && i < |cs| && 1 <= j <= size
    ensures Shape(cs, size, states[p])
    ensures var t := Predecessor(i, j, |cs|);
            states[p].runs[i].s.bottomVersion
            == StoredCount(states, actions, p, i, t) + CountAsks(states[p].mail[i][t]) + CountValues(states[p].mail[t][i])
  {
    TraceIsAccounted(cs, size, states, actions, p, i, Predecessor(i, j, |cs|));
  }

  /** As a server makes one request per completed round, request number v + 1 is the first one after a moment at
      which it has version v. Once as many replies have been stored, its slot holds the parameters that the
      predecessor had at that moment or later. */
  lemma {:induction false} BackupsAreRecent(cs: seq<S.Config>, size: nat, states: seq<Cluster>, actions: seq<Action>,
                                            p: nat, q: nat, i: nat, j: nat)
    returns (m: nat)
    requires ValidSetup(cs, size) && Trace(cs, size, states, actions) && p <= q < |states| && i < |cs| && 1 <= j <= size
    requires i < |states[p].runs| && StoredCount(states, actions, q, i, Predecessor(i, j, |cs|)) > states[p].runs[i].s.bottomVersion
    ensures m <= q && Shape(cs, size, states[m]) && Shape(cs, size, states[p]) && Shape(cs, size, states[q])
    ensures var t := Predecessor(i, j, |cs|);
            && states[q].backups[i][j - 1] == states[m].runs[t].s.parameters
            && states[p].runs[t].s.bottomVersion <= states[m].runs[t].s.bottomVersion
  {
    hide Follows, StoredCount;
    TraceStaysRecent(cs, size, states, actions, p, q, i, Predecessor(i, j, |cs|));
    m := BackupsArePast(cs, size, states, actions, q, i, j);
  }

  // ---- Backups can always be brought up to date ----

  /** What is left to do on a connection: to answer the requests and to store the parameters. */
  function Work(channel: seq<Mail>): (work: nat) {
    2 * CountAsks(channel) + CountValues(channel)
  }

  /** A delivery leaves less to do between the two servers and does not change their parameters. */
  lemma DeliveryWorks(cs: seq<S.Config>, size: nat, k: Cluster, sender: nat, receiver: nat)
    requires ClusterGood(cs, size, k) && Enabled(cs, size, k, Deliver(sender, receiver)) && sender != receiver
    ensures var k' := ClusterStep(cs, size, k, Deliver(sender, receiver));
            && k'.runs == k.runs
            && Work(k'.mail[sender][receiver]) + Work(k'.mail[receiver][sender])
               < Work(k.mail[sender][receiver]) + Work(k.mail[receiver][sender])
  {
    hide Good, Linked, ClusterStep, AllCover, AllGood, CountAsks, CountValues;
    CountsOfRest(k.mail[sender][receiver]);
    if k.mail[sender][receiver][0].Ask? {
      DeliveredRequestIsAnswered(cs, size, k, sender, receiver);
      CountsAppend(k.mail[receiver][sender], Values(k.runs[receiver].s.parameters, k.runs[receiver].s.bottomVersion));
    } else {
      var j := DeliveredValuesAreStored(cs, size, k, sender, receiver);
    }
  }

  lemma TraceGoesOn(cs: seq<S.Config>, size: nat, states: seq<Cluster>, actions: seq<Action>, a: Action)
    requires ValidSetup(cs, size) && Trace(cs, size, states, actions)
    requires ClusterGood(cs, size, states[|actions|]) && Enabled(cs, size, states[|actions|], a)
    ensures Trace(cs, size, states + [ClusterStep(cs, size, states[|actions|], a)], actions + [a])
  {
    hide ClusterGood, Enabled, ClusterStep;
    var states', actions' := states + [ClusterStep(cs, size, states[|actions|], a)], actions + [a];
    forall p | 0 <= p < |actions'|
      ensures Follows(cs, size, states'[p], actions'[p], states'[p + 1])
    {
      if p < |actions| {
        assert Follows(cs, size, states[p], actions[p], states[p + 1]);
      }
    }
  }

  /** From every reachable state, deliveries between two servers alone empty the connections between them. */
  lemma {:induction false} DeliveriesEnd(cs: seq<S.Config>, size: nat, states: seq<Cluster>, actions: seq<Action>, i: nat, t: nat)
    returns (states': seq<Cluster>, actions': seq<Action>)
    requires ValidSetup(cs, size) && Trace(cs, size, states, actions) && i < |cs| && t < |cs| && i != t
    requires Shape(cs, size, states[|actions|])
    ensures Trace(cs, size, states', actions') && states <= states' && actions <= actions'
    ensures forall p :: |actions| <= p < |actions'| ==> actions'[p] == Deliver(i, t) || actions'[p] == Deliver(t, i)
    ensures Shape(cs, size, states'[|actions'|]) && states'[|actions'|].runs == states[|actions|].runs
    ensures states'[|actions'|].mail[i][t] == states'[|actions'|].mail[t][i] == []
    decreases Work(states[|actions|].mail[i][t]) + Work(states[|actions|].mail[t][i])
  {
    hide ClusterGood, ClusterStep, Follows, Work;
    var k := states[|actions|];
    StatesAreGood(cs, size, states, actions, |actions|);
    if k.mail[i][t] == [] && k.mail[t][i] == [] {
      states', actions' := states, actions;
    } else {
      var a := if k.mail[i][t] != [] then Deliver(i, t) else Deliver(t, i);
      DeliveryWorks(cs, size, k, a.sender, a.receiver);
      TraceGoesOn(cs, size, states, actions, a);
      states', actions' := DeliveriesEnd(cs, size, states + [ClusterStep(cs, size, k, a)], actions + [a], i, t);
    }
  }

  /** In every reachable state, it takes only deliveries between a server and its j-th predecessor until every
      request that the server has made is answered and stored, and its slot is as new as the predecessor was
      when the server completed its last round. */
  lemma {:induction false} BackupsCanCatchUp(cs: seq<S.Config>, size: nat, states: seq<Cluster>, actions: seq<Action>, i: nat, j: nat)
    returns (states': seq<Cluster>, actions': seq<Action>)
    requires ValidSetup(cs, size) && Trace(cs, size, states, actions) && i < |cs| && 1 <= j <= size
    ensures Trace(cs, size, states', actions') && states <= states' && actions <= actions'
    ensures var t := Predecessor(i, j, |cs|);
            forall p :: |actions| <= p < |actions'| ==> actions'[p] == Deliver(i, t) || actions'[p] == Deliver(t, i)
    ensures var t := Predecessor(i, j, |cs|);
            && Shape(cs, size, states'[|actions'|]) && Shape(cs, size, states[|actions|])
            && states'[|actions'|].runs == states[|actions|].runs
            && StoredCount(states', actions', |actions'|, i, t) == states[|actions|].runs[i].s.bottomVersion
            && forall p :: 0 <= p <= |actions| && Shape(cs, size, states[p])
                           && states[p].runs[i].s.bottomVersion < states[|actions|].runs[i].s.bottomVersion
                 ==> states[p].runs[t].s.bottomVersion <= states'[|actions'|].stamps[i][j - 1]
  {
    hide Follows, StoredCount, ClusterGood, Work, BackupSlot;
    var t: nat := Predecessor(i, j, |cs|);
    SlotOfPredecessor(i, j, |cs|);
    StatesAreGood(cs, size, states, actions, |actions|);
    GoodIsShaped(cs, size, states[|actions|]);
    states', actions' := DeliveriesEnd(cs, size, states, actions, i, t);
    EmptyMeansStored(cs, size, states', actions', i, j);
    forall p | 0 <= p <= |actions| && Shape(cs, size, states[p])
               && states[p].runs[i].s.bottomVersion < states[|actions|].runs[i].s.bottomVersion
      ensures states[p].runs[t].s.bottomVersion <= states'[|actions'|].stamps[i][j - 1]
    {
      assert states'[p] == states[p];
      CaughtUp(cs, size, states', actions', p, i, t);
    }
  }

  lemma SlotOfPredecessor(i: nat, j: nat, n: nat)
    requires i < n && 1 <= j < n
    ensures 0 <= Predecessor(i, j, n) < n && Predecessor(i, j, n) != i && BackupSlot(i, Predecessor(i, j, n), n) == j - 1
  {
  }

  lemma GoodIsShaped(cs: seq<S.Config>, size: nat, k: Cluster)
    requires ClusterGood(cs, size, k)
    ensures Shape(cs, size, k)
  {
  }

  lemma {:induction false} EmptyMeansStored(cs: seq<S.Config>, size: nat, states: seq<Cluster>, actions: seq<Action>, i: nat, j: nat)
    requires ValidSetup(cs, size) && Trace(cs, size, states, actions) && i < |cs| && 1 <= j <= size
    requires Shape(cs, size, states[|actions|])
    requires var t := Predecessor(i, j, |cs|);
             states[|actions|].mail[i][t] == states[|actions|].mail[t][i] == []
    ensures StoredCount(states, actions, |actions|, i, Predecessor(i, j, |cs|)) == states[|actions|].runs[i].s.bottomVersion
  {
    hide Follows, StoredCount;
    RequestsAreAccountedFor(cs, size, states, actions, |actions|, i, j);
  }

  /** Once as many parameters were stored as rounds were completed, the slot is as recent as the last request. */
  lemma {:induction false} CaughtUp(cs: seq<S.Config>, size: nat, states: seq<Cluster>, actions: seq<Action>, p: nat, i: nat, t: nat)
    requires ValidSetup(cs, size) && Trace(cs, size, states, actions) && p <= |actions|
    requires i < |cs| && t < |cs| && BackupSlot(i, t, |cs|) < size
    requires Shape(cs, size, states[p]) && Shape(cs, size, states[|actions|])
    requires states[p].runs[i].s.bottomVersion < StoredCount(states, actions, |actions|, i, t)
    ensures states[p].runs[t].s.bottomVersion <= states[|actions|].stamps[i][BackupSlot(i, t, |cs|)]
  {
    hide Follows, StoredCount;
    TraceStaysRecent(cs, size, states, actions, p, |actions|, i, t);
  }
}
