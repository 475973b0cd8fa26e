/** The message queue over whole runs: which sequence numbers are retained, issued and dropped. */
module MessageQueue {
  import opened Ordered
  import opened GroupModel
  import opened GroupRequests
  import opened GroupRuns
  import opened CommitLog
  import opened Retention

  // ---------- contiguity and message epochs, in every interleaving ----------

  ghost predicate QueueWf(g: Group) {
    && Contiguous(g.queue.Keys)
    && (forall k | k in g.queue :: k >= 1 && g.queue[k].epoch <= g.epoch)
    && forall j, k | j in g.queue && k in g.queue && g.queue[j].msgId == g.queue[k].msgId :: j == k
  }

  lemma KeptIsAbove(g: Group, j: nat, k: nat)
    requires j in Kept(g) && k in g.queue && j <= k
    ensures k in Kept(g)
  {}

  lemma KeptIsInterval(g: Group)
    requires Contiguous(g.queue.Keys)
    ensures Contiguous(Kept(g))
  {
    hide Kept;
    forall a, b, c | a in Kept(g) && b in Kept(g) && a <= c <= b ensures c in Kept(g) {
      assert a in g.queue.Keys && b in g.queue.Keys;
      KeptIsAbove(g, a, c);
    }
  }

  lemma SubqueueWf(g: Group, g': Group)
    requires QueueWf(g) && Contiguous(g'.queue.Keys) && g'.epoch == g.epoch
    requires forall k | k in g'.queue :: k in g.queue && g'.queue[k] == g.queue[k]
    ensures QueueWf(g')
  {}

  lemma WfIsInterval(g: Group)
    requires QueueWf(g)
    ensures Contiguous(g.queue.Keys)
  {}

  lemma ReclaimedQueue(g: Group)
    ensures ReclaimMessages(g).g.queue.Keys == Kept(g) && ReclaimMessages(g).g.epoch == g.epoch
    ensures forall k | k in ReclaimMessages(g).g.queue :: k in g.queue && ReclaimMessages(g).g.queue[k] == g.queue[k]
  {
    hide Kept, NewFloor, Unacked;
  }

  lemma ReclaimKeepsWf(g: Group)
    requires QueueWf(g)
    ensures QueueWf(ReclaimMessages(g).g)
  {
    hide *;
    WfIsInterval(g);
    KeptIsInterval(g);
    ReclaimedQueue(g);
    SubqueueWf(g, ReclaimMessages(g).g);
  }

  lemma NewRowIsUnique(queue: map<nat, MessageRow>, n: nat, row: MessageRow)
    requires !HasMsgId(queue, row.msgId)
    requires forall j, k | j in queue && k in queue && queue[j].msgId == queue[k].msgId :: j == k
    ensures var more := queue[n := row];
            forall j, k | j in more && k in more && more[j].msgId == more[k].msgId :: j == k
  {
    assert forall j | j in queue :: queue[j].msgId != row.msgId;
  }

  lemma AppendIsInterval(g: Group, row: MessageRow)
    requires Contiguous(g.queue.Keys) && !HasMsgId(g.queue, row.msgId)
    ensures var k := NextSeq(g.queue);
            k >= 1 && AppendMessage(g, row).g == g.(queue := g.queue[k := row])
    ensures Contiguous(AppendMessage(g, row).g.queue.Keys)
  {
    var k := NextSeq(g.queue);
    OnTopIsInterval(g.queue.Keys, k);
    assert g.queue[k := row].Keys == g.queue.Keys + {k};
  }

  lemma AppendKeepsWf(g: Group, row: MessageRow)
    requires QueueWf(g) && row.epoch <= g.epoch
    ensures QueueWf(AppendMessage(g, row).g)
  {
    hide Contiguous, NextSeq, HasMsgId;
    if !HasMsgId(g.queue, row.msgId) {
      AppendIsInterval(g, row);
      NewRowIsUnique(g.queue, NextSeq(g.queue), row);
      hide AppendMessage;
    }
  }

  lemma OnTopIsInterval(keys: set<nat>, k: nat)
    requires Contiguous(keys) && k == if keys == {} then 1 else MaxOf(keys) + 1
    ensures Contiguous(keys + {k})
    ensures k !in keys && k >= 1
  {
    var more := keys + {k};
    forall a, b, c | a in more && b in more && a <= c <= b ensures c in more {
      if c != k {
        assert a in keys && MaxOf(keys) in keys;
      }
    }
  }

  lemma QueueStep(g: Group, t: Event)
    requires QueueWf(g)
    requires t.request.Send? ==> t.request.epoch <= g.epoch
    ensures QueueWf(Act(g, t).g)
  {
    hide AppendWelcome, AppendMessage, UpsertCursor, LeaveGroup, RemoveMember, CreateTransfer, DecideTransfer,
         ReclaimMessages;
    match t.request
    case Send(user, epoch, msgId, body) =>
      AppendKeepsWf(g, MessageRow(epoch, user, msgId, body));
    case Cleanup =>
      ReclaimKeepsWf(g);
    case Commit(_, _, _, _, _) =>
      QueueFootprint(g, t);
      assert Act(g, t).g.epoch >= g.epoch;
    case _ =>
      QueueFootprint(g, t);
      LogFootprint(g, t);
  }

  /** In every interleaving, even with commits between a send's epoch check and its append, the
      retained seqs are one interval of positive numbers, message ids are unique, and no retained
      message is from an epoch beyond current_epoch. */
  lemma {:induction false} QueueIsWellFormed(creator: UserId, ts: seq<Event>)
    requires Interleaving(NewGroup(creator), ts)
    ensures QueueWf(Settled(NewGroup(creator), ts))
    decreases |ts|
  {
    if ts != [] {
      var g0 := NewGroup(creator);
      var front, t := ts[..|ts| - 1], ts[|ts| - 1];
      QueueIsWellFormed(creator, front);
      if t.request.Send? {
        var k :| 0 <= k <= |front| && Settled(g0, front[..k]).epoch == t.request.epoch;
        LogOnlyGrows(creator, front, k);
      }
      QueueStep(Settled(g0, front), t);
    }
  }

  // ---------- epochs along the queue ----------

  ghost predicate EpochsInOrder(g: Group) {
    forall j, k | j in g.queue && k in g.queue && j <= k :: g.queue[j].epoch <= g.queue[k].epoch
  }

  /** A message is appended whose epoch is behind that of the newest message retained. */
  ghost predicate SendsBehind(g: Group, e: Event) {
    && e.request.Send? && !HasMsgId(g.queue, e.request.msgId)
    && g.queue.Keys != {} && e.request.epoch < g.queue[MaxOf(g.queue.Keys)].epoch
  }

  lemma AppendEpochOrder(g: Group, e: Event)
    requires EpochsInOrder(g) && e.request.Send?
    ensures EpochsInOrder(Act(g, e).g) <==> !SendsBehind(g, e)
  {
    hide HasMsgId;
    var row := MessageRow(e.request.epoch, e.request.user, e.request.msgId, e.request.body);
    assert Act(g, e) == AppendMessage(g, row);
    if !HasMsgId(g.queue, row.msgId) {
      InOrderOnTop(g.queue, NextSeq(g.queue), row);
    }
  }

  lemma InOrderOnTop(queue: map<nat, MessageRow>, n: nat, row: MessageRow)
    requires n == NextSeq(queue)
    requires forall j, k | j in queue && k in queue && j <= k :: queue[j].epoch <= queue[k].epoch
    ensures var more := queue[n := row];
            (forall j, k | j in more && k in more && j <= k :: more[j].epoch <= more[k].epoch) <==>
            (queue.Keys != {} ==> queue[MaxOf(queue.Keys)].epoch <= row.epoch)
  {
    var more := queue[n := row];
    if queue.Keys != {} {
      var top := MaxOf(queue.Keys);
      assert top in more && more[top] == queue[top] && top < n && more[n] == row;
    }
  }

  lemma ReclaimKeepsEpochOrder(g: Group)
    requires EpochsInOrder(g)
    ensures EpochsInOrder(ReclaimMessages(g).g)
  {
    hide Kept, NewFloor, Unacked;
    var q := ReclaimMessages(g).g.queue;
    assert forall k | k in q :: k in g.queue && q[k] == g.queue[k];
  }

  /** A transaction, however old its check, breaks the order of epochs exactly when it is such a send. */
  lemma EpochOrderStep(g: Group, e: Event)
    requires EpochsInOrder(g)
    ensures EpochsInOrder(Act(g, e).g) <==> !SendsBehind(g, e)
  {
    hide EpochsInOrder, AppendWelcome, AppendMessage, UpsertCursor, LeaveGroup, RemoveMember, CreateTransfer,
         DecideTransfer, ReclaimMessages;
    match e.request
    case Send(_, _, _, _) => AppendEpochOrder(g, e);
    case Cleanup => ReclaimKeepsEpochOrder(g);
    case _ => SameQueueSameOrder(g, e);
  }

  lemma SameQueueSameOrder(g: Group, e: Event)
    requires EpochsInOrder(g) && !e.request.Send? && !e.request.Cleanup?
    ensures EpochsInOrder(Act(g, e).g)
  {
    hide Act;
    QueueFootprint(g, e);
  }

  /** A send checked and appended in one step is from the current epoch, and no retained message is
      from a later one. */
  lemma ServedSendIsNotBehind(g: Group, e: Event)
    requires QueueWf(g)
    ensures Guard(g, e.request).Proceed? ==> !SendsBehind(g, e)
  {
    hide Act, HasMsgId;
  }

  /** When each send checks and appends in one step, epochs never decrease along seq. */
  lemma {:induction false} EpochsNeverDecreaseAlongSeq(creator: UserId, es: seq<Event>)
    ensures EpochsInOrder(Served(NewGroup(creator), es))
    decreases |es|
  {
    hide Act, Guard, EpochsInOrder, SendsBehind, QueueWf, Interleaving;
    if es == [] {
      NothingQueued(creator);
    } else {
      var front, e := es[..|es| - 1], es[|es| - 1];
      var g := Served(NewGroup(creator), front);
      EpochsNeverDecreaseAlongSeq(creator, front);
      ServedIsAnInterleaving(NewGroup(creator), front);
      QueueIsWellFormed(creator, Passed(NewGroup(creator), front));
      ServedSendIsNotBehind(g, e);
      EpochOrderStep(g, e);
    }
  }

  lemma NothingQueued(creator: UserId)
    ensures EpochsInOrder(NewGroup(creator))
  {}

  /** In every interleaving: epochs never decrease along seq, at every moment, exactly when no message
      is appended behind the newest one retained. */
  lemma EpochsInOrderIffNoSendBehind(creator: UserId, ts: seq<Event>)
    ensures var gs := States(NewGroup(creator), ts);
            Throughout(gs, EpochsInOrder) <==> Never(gs, ts, SendsBehind)
  {
    hide Act, EpochsInOrder, SendsBehind, Throughout, Never;
    var gs := States(NewGroup(creator), ts);
    NothingQueued(creator);
    StatesChain(NewGroup(creator), ts, 0);
    forall k | 0 <= k < |ts| ensures BreaksAt(gs, ts, EpochsInOrder, SendsBehind, k) {
      StatesChain(NewGroup(creator), ts, k);
      if EpochsInOrder(gs[k]) {
        EpochOrderStep(gs[k], ts[k]);
      }
    }
    ThroughoutIffNever(gs, ts, EpochsInOrder, SendsBehind);
  }

  lemma AppendToOne(g: Group, first: MessageRow, row: MessageRow)
    requires g.queue == map[] && first.msgId != row.msgId
    ensures var g1 := AppendMessage(g, first).g;
            && g1 == g.(queue := map[1 := first])
            && AppendMessage(g1, row).g == g.(queue := map[1 := first, 2 := row])
  {
    var q1 := map[1 := first];
    assert g.queue.Keys == {} && g.queue[1 := first] == q1;
    assert q1.Keys == {1} && MaxOf({1}) == 1 && NextSeq(q1) == 2;
    assert q1[2 := row] == map[1 := first, 2 := row];
    assert !HasMsgId(q1, row.msgId) by {
      assert forall k | k in q1 :: k == 1;
    }
  }

  /** A send of epoch 0 passes its check, the epoch moves on, another message is sent, and only then the
      first is appended: seq 2 is from an earlier epoch than seq 1. */
  lemma SplitSendBreaksEpochOrder(owner: UserId)
    requires owner != ""
    ensures var g := NewGroup(owner);
            var late, commit := Event(Send(owner, 0, "a", "x"), 0), Event(Commit(owner, 0, 1, "commit", "c"), 0);
            var next := Event(Send(owner, 1, "b", "y"), 0);
            && Guard(g, late.request) == Proceed
            && Interleaving(g, [commit, next, late])
            && !EpochsInOrder(Settled(g, [commit, next, late]))
  {
    var g := NewGroup(owner);
    var late, commit := Event(Send(owner, 0, "a", "x"), 0), Event(Commit(owner, 0, 1, "commit", "c"), 0);
    var next := Event(Send(owner, 1, "b", "y"), 0);
    var g1 := Act(g, commit).g;
    assert g1.epoch == 1 && g1.queue == map[];
    AppendToOne(g1, MessageRow(1, owner, "b", "y"), MessageRow(0, owner, "a", "x"));
    hide AppendMessage, AppendCommit, EpochsInOrder, Settled, Interleaving;
    ThreeSettled(g, commit, next, late);
    OutOfOrder(Settled(g, [commit, next, late]), 1, 2);
  }

  lemma OutOfOrder(g: Group, j: nat, k: nat)
    requires j in g.queue && k in g.queue && j <= k && g.queue[j].epoch > g.queue[k].epoch
    ensures !EpochsInOrder(g)
  {}

  /** t2 and t3 each name an epoch that was current before. */
  lemma ThreeSettled(g: Group, t1: Event, t2: Event, t3: Event)
    requires t1.request.Commit? && t2.request.Send? && t3.request.Send?
    requires !Incomplete(t1.request) && !Incomplete(t2.request) && !Incomplete(t3.request)
    requires t2.request.epoch == Act(g, t1).g.epoch && t3.request.epoch == g.epoch
    ensures Settled(g, [t1, t2, t3]) == Act(Act(Act(g, t1).g, t2).g, t3).g
    ensures Interleaving(g, [t1, t2, t3])
  {
    hide Act;
    assert [t1][..0] == [] && [t1, t2][..1] == [t1] && [t1, t2][..0] == [];
    assert [t1, t2, t3][..2] == [t1, t2];
    assert Settled(g, [t1]) == Act(g, t1).g;
    assert Settled(g, [t1, t2]) == Act(Act(g, t1).g, t2).g;
    assert [t1][..1] == [t1] && Settled(g, [t1][..1]).epoch == t2.request.epoch;
    assert Settled(g, [t1, t2][..0]).epoch == t3.request.epoch;
    assert Interleaving(g, []) && Interleaving(g, [t1]);
    assert Interleaving(g, [t1, t2]);
  }

  // ---------- dropped messages ----------

  /** Every seq a transaction of ts removed from the queue. */
  ghost function Dropped(g: Group, ts: seq<Event>): set<nat>
    decreases |ts|
  {
    if ts == [] then {} else
      Dropped(g, ts[..|ts| - 1]) + (Settled(g, ts[..|ts| - 1]).queue.Keys - Settled(g, ts).queue.Keys)
  }

  ghost predicate DropsBelowFloor(g: Group, g': Group) {
    && g.minSeq <= g'.minSeq
    && forall k | k in g.queue.Keys && k !in g'.queue.Keys :: k <= g'.minSeq
  }

  lemma ReclaimDropsBelowFloor(g: Group)
    ensures DropsBelowFloor(g, ReclaimMessages(g).g)
  {
    var g' := ReclaimMessages(g).g;
    assert g'.queue.Keys == Kept(g);
    forall k | k in g.queue.Keys && k !in g'.queue.Keys ensures k <= g'.minSeq {
      FloorIsTight(g, k);
    }
  }

  lemma AppendDropsNothing(g: Group, row: MessageRow)
    ensures DropsBelowFloor(g, AppendMessage(g, row).g)
  {}

  lemma DropStep(g: Group, t: Event)
    ensures DropsBelowFloor(g, Act(g, t).g)
  {
    hide AppendCommit, AppendWelcome, AppendMessage, UpsertCursor, LeaveGroup, RemoveMember, CreateTransfer,
         DecideTransfer, ReclaimMessages;
    match t.request
    case Cleanup =>
      ReclaimDropsBelowFloor(g);
    case Send(user, epoch, msgId, body) =>
      AppendDropsNothing(g, MessageRow(epoch, user, msgId, body));
    case _ =>
      QueueFootprint(g, t);
  }

  /** Every message ever dropped is covered by the floor that clients are told. */
  lemma {:induction false} DroppedStayBelowFloor(g: Group, ts: seq<Event>)
    ensures forall k | k in Dropped(g, ts) :: k <= Settled(g, ts).minSeq
    ensures g.minSeq <= Settled(g, ts).minSeq
    decreases |ts|
  {
    if ts != [] {
      DroppedStayBelowFloor(g, ts[..|ts| - 1]);
      DropStep(Settled(g, ts[..|ts| - 1]), ts[|ts| - 1]);
    }
  }
}
