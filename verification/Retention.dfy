/** What one retention pass removes, and whose acknowledgements it waits for. */
module Retention {
  import opened Ordered
  import opened GroupModel
  import opened GroupRequests
  import opened GroupRuns

  // ---------- one pass ----------

  /** The pass leaves the newest min(10000, n) of the n rows above the seq that every member has
      acknowledged, and nothing else can be left; each remaining row is unchanged. */
  lemma ReclaimKeepsTheNewestUnacked(g: Group, kept: set<nat>)
    ensures var g' := ReclaimMessages(g).g;
            && (IsNewest(kept, Unacked(g), QUEUE_MAX) <==> kept == g'.queue.Keys)
            && |g'.queue| <= QUEUE_MAX
            && (forall k | k in g'.queue :: g'.queue[k] == g.queue[k])
            && g' == g.(queue := g'.queue, minSeq := g'.minSeq)
  {
    var g' := ReclaimMessages(g).g;
    assert g'.queue.Keys == Kept(g);
    assert |g'.queue| == |g'.queue.Keys|;
    if IsNewest(kept, Unacked(g), QUEUE_MAX) {
      NewestUnique(kept, Kept(g), Unacked(g), QUEUE_MAX);
    }
  }

  /** The counts a pass reports are those of the rows it removed: first the acknowledged ones, then as many
      of the others as exceed 10000; and the floor it reports is the new one. */
  lemma ReclaimCountsRows(g: Group)
    ensures var o := ReclaimMessages(g);
            && o.reply.Reclaim? && o.reply.minSeq == o.g.minSeq
            && |g.queue| == |o.g.queue| + o.reply.deletedByCursor + o.reply.deletedByCap
            && o.reply.deletedByCursor == |g.queue| - |Unacked(g)|
            && o.reply.deletedByCap == if |Unacked(g)| <= 10000 then 0 else |Unacked(g)| - 10000
  {
    hide Newest, NewFloor;
    var o := ReclaimMessages(g);
    assert o.g.queue.Keys == Kept(g);
    assert |g.queue| == |g.queue.Keys| && |o.g.queue| == |o.g.queue.Keys|;
    Partition(g.queue.Keys, Unacked(g));
    Partition(Unacked(g), Kept(g));
  }

  lemma Partition(s: set<nat>, part: set<nat>)
    requires part <= s
    ensures |s - part| == |s| - |part|
  {
    assert s == part + (s - part);
  }

  /** The cursor phase removes a row exactly when the group has members and every one of them has
      acknowledged it; one member who has not blocks it. */
  lemma CursorPhaseWaitsForEveryMember(g: Group, k: nat)
    requires k in g.queue && k >= 1
    ensures k !in Unacked(g) <==> |g.members| != 0 && forall u | u in g.members :: CursorOf(g, u) >= k
  {
    if |g.members| != 0 {
      var s := SafeSeq(g);
      assert IsSafeSeq(g, s);
      var u :| u in g.members && CursorOf(g, u) == s;
    }
  }

  /** Every row a pass removes lies at or below the new floor, every row it keeps that was above the
      old floor lies above the new one, and the floor is no higher than that requires. */
  lemma FloorIsTight(g: Group, k: nat)
    requires k in g.queue
    ensures k !in Kept(g) ==> k <= NewFloor(g)
    ensures k in Kept(g) && k > g.minSeq ==> k > NewFloor(g)
    ensures NewFloor(g) == g.minSeq || NewFloor(g) == AckedByAll(g) ||
            (NewFloor(g) in g.queue && NewFloor(g) !in Kept(g))
    ensures NewFloor(g) >= g.minSeq
  {
    if k in Unacked(g) - Kept(g) {
      assert k <= CapCutoff(g);
    }
  }

  /** Exactly which messages a pass leaves: those that some member has not acknowledged (or any, when
      nobody is left) and that have fewer than 10000 such messages above them. */
  lemma SurvivesPassIff(g: Group, k: nat)
    requires k in g.queue && k >= 1
    ensures k in ReclaimMessages(g).g.queue <==>
            && (|g.members| == 0 || exists u :: u in g.members && CursorOf(g, u) < k)
            && |Above(Unacked(g), k)| < QUEUE_MAX
  {
    hide Unacked, Newest, Above;
    assert k in ReclaimMessages(g).g.queue <==> k in Kept(g);
    CursorPhaseWaitsForEveryMember(g, k);
    if k in Unacked(g) {
      NewestIffFewAbove(Kept(g), Unacked(g), QUEUE_MAX, k);
    }
  }

  /** u still has to acknowledge k, and there is room for everything unacknowledged. */
  ghost predicate Waiting(g: Group, u: UserId, k: nat) {
    u in g.members && CursorOf(g, u) < k && |Unacked(g)| <= QUEUE_MAX
  }

  lemma WaitingStep(g: Group, t: Event, u: UserId, k: nat)
    requires k in g.queue && k >= 1 && Waiting(g, u, k)
    ensures k in Act(g, t).g.queue && Act(g, t).g.queue[k] == g.queue[k]
  {
    hide AppendMessage, ReclaimMessages, Waiting, Unacked;
    match t.request
    case Cleanup => PassWaits(g, u, k);
    case Send(user, epoch, msgId, body) => AppendKeepsRows(g, MessageRow(epoch, user, msgId, body), k);
    case _ => QueueFootprint(g, t);
  }

  lemma PassWaits(g: Group, u: UserId, k: nat)
    requires k in g.queue && k >= 1 && Waiting(g, u, k)
    ensures k in ReclaimMessages(g).g.queue && ReclaimMessages(g).g.queue[k] == g.queue[k]
  {
    hide ReclaimMessages, Unacked;
    SurvivesPassIff(g, k);
    assert |g.members| != 0 by { assert u in g.members.Keys && |g.members.Keys| == |g.members|; }
    AwaitedIsUnacked(g, u, k);
    AboveIsFewer(Unacked(g), k);
    KeptIsQueued(g, k);
  }

  lemma AwaitedIsUnacked(g: Group, u: UserId, k: nat)
    requires k in g.queue && k >= 1 && u in g.members && CursorOf(g, u) < k
    ensures k in Unacked(g)
  {
    CursorPhaseWaitsForEveryMember(g, k);
  }

  lemma AboveIsFewer(s: set<nat>, k: nat)
    requires k in s
    ensures |Above(s, k)| < |s|
  {
    assert Above(s, k) <= s - {k};
    CardinalityOfSubset(Above(s, k), s - {k});
  }

  lemma KeptIsQueued(g: Group, k: nat)
    requires k in g.queue
    ensures k in ReclaimMessages(g).g.queue ==> ReclaimMessages(g).g.queue[k] == g.queue[k]
  {}

  lemma AppendKeepsRows(g: Group, row: MessageRow, k: nat)
    requires k in g.queue
    ensures k in AppendMessage(g, row).g.queue && AppendMessage(g, row).g.queue[k] == g.queue[k]
  {}

  /** In every interleaving, from any state: a queued message stays, unchanged, as long as some member
      has not acknowledged it and no more than 10000 messages are unacknowledged. */
  lemma {:induction false} UnackedMessageSurvives(g: Group, ts: seq<Event>, u: UserId, k: nat)
    requires k in g.queue && k >= 1
    requires forall n | 0 <= n < |ts| :: Waiting(Settled(g, ts[..n]), u, k)
    ensures k in Settled(g, ts).queue && Settled(g, ts).queue[k] == g.queue[k]
    decreases |ts|
  {
    hide Act, Waiting;
    if ts != [] {
      var front := ts[..|ts| - 1];
      assert forall n | 0 <= n < |front| :: front[..n] == ts[..n];
      UnackedMessageSurvives(g, front, u, k);
      assert Waiting(Settled(g, ts[..|front|]), u, k);
      WaitingStep(Settled(g, front), ts[|ts| - 1], u, k);
    }
  }

  /** A second pass changes nothing. */
  lemma ReclaimIsIdempotent(g: Group)
    ensures var g' := ReclaimMessages(g).g;
            && ReclaimMessages(g').g == g'
            && ReclaimMessages(g').reply == Reclaim(0, 0, g'.minSeq)
  {
    var g' := ReclaimMessages(g).g;
    SecondPassKeepsAll(g);
    NothingLeftToDrop(g');
  }

  lemma NothingLeftToDrop(g: Group)
    requires g.queue.Keys == Unacked(g) == Kept(g) && g.minSeq >= AckedByAll(g)
    ensures ReclaimMessages(g) == Outcome(g, Reclaim(0, 0, g.minSeq))
  {
    assert Unacked(g) - Kept(g) == {};
    assert g.queue.Keys - Unacked(g) == {};
    assert Retain(g.queue, Kept(g)) == g.queue;
  }

  lemma SecondPassKeepsAll(g: Group)
    ensures var g' := ReclaimMessages(g).g;
            && AckedByAll(g') == AckedByAll(g)
            && g'.queue.Keys == Unacked(g') == Kept(g')
  {
    hide Newest, Kept, Unacked, AckedByAll;
    var g' := ReclaimMessages(g).g;
    assert g'.queue.Keys == Kept(g);
    SameAcks(g, g');
    KeptIsUnacked(g, g');
  }

  lemma KeptIsUnacked(g: Group, g': Group)
    requires g'.queue.Keys == Kept(g) && AckedByAll(g') == AckedByAll(g)
    ensures g'.queue.Keys == Unacked(g') == Kept(g')
  {
    hide Newest, AckedByAll;
    assert forall k | k in Kept(g) :: k in Unacked(g);
    assert Unacked(g') == Kept(g);
    NewestOfFew(Unacked(g'), QUEUE_MAX);
  }

  lemma SameAcks(g: Group, g': Group)
    requires g'.members == g.members && g'.cursors == g.cursors
    ensures AckedByAll(g') == AckedByAll(g)
  {
    if |g.members| != 0 {
      var s, s' := SafeSeq(g), SafeSeq(g');
      assert IsSafeSeq(g, s) && IsSafeSeq(g', s');
      var u :| u in g.members && CursorOf(g, u) == s;
      var v :| v in g'.members && CursorOf(g', v) == s';
      assert CursorOf(g', u) == CursorOf(g, u);
      assert CursorOf(g', v) == CursorOf(g, v);
    }
  }
}
