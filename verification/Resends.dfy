/** Group messages sent again under the same message id: what the queue recognises as a duplicate. */
module Resends {
  import opened Ordered
  import opened GroupModel
  import opened GroupRequests
  import opened GroupRuns
  import opened Numbering

  /** A message with this id is appended. */
  ghost predicate Appends(g: Group, t: Event, id: string) {
    t.request.Send? && t.request.msgId == id && Act(g, t).reply.AtSeq?
  }

  /** A pass takes the last message with this id. */
  ghost predicate Forgets(g: Group, t: Event, id: string) {
    t.request.Cleanup? && HasMsgId(g.queue, id) && !HasMsgId(Act(g, t).g.queue, id)
  }

  /** Transaction k of ts appended a message with this id and no pass has forgotten it since. */
  ghost predicate AppendedSince(g: Group, ts: seq<Event>, k: nat, id: string) {
    && k < |ts| && Appends(Settled(g, ts[..k]), ts[k], id)
    && forall j | k < j < |ts| :: !Forgets(Settled(g, ts[..j]), ts[j], id)
  }

  ghost predicate Recognised(g: Group, ts: seq<Event>, id: string) {
    exists k: nat :: AppendedSince(g, ts, k, id)
  }

  lemma SendKnowsId(g: Group, t: Event, id: string)
    requires t.request.Send?
    ensures Appends(g, t, id) <==> t.request.msgId == id && !HasMsgId(g.queue, id)
    ensures HasMsgId(Act(g, t).g.queue, id) <==> HasMsgId(g.queue, id) || Appends(g, t, id)
  {
    var row := MessageRow(t.request.epoch, t.request.user, t.request.msgId, t.request.body);
    assert Act(g, t) == AppendMessage(g, row);
    if !HasMsgId(g.queue, row.msgId) {
      NextIsNew(g.queue);
      ByOneRow(g.queue, NextSeq(g.queue), row, id);
    }
  }

  lemma NextIsNew(queue: map<nat, MessageRow>)
    ensures NextSeq(queue) !in queue
  {}

  lemma ByOneRow(queue: map<nat, MessageRow>, n: nat, row: MessageRow, id: string)
    requires n !in queue
    ensures HasMsgId(queue[n := row], id) <==> HasMsgId(queue, id) || row.msgId == id
  {
    var more := queue[n := row];
    assert more[n] == row;
    if k :| k in queue && queue[k].msgId == id {
      assert more[k].msgId == id;
    }
  }

  lemma PassKnowsLess(g: Group, t: Event, id: string)
    requires t.request.Cleanup?
    ensures HasMsgId(Act(g, t).g.queue, id) ==> HasMsgId(g.queue, id)
  {
    hide Kept, NewFloor, Unacked;
    var q := Act(g, t).g.queue;
    assert forall k | k in q :: k in g.queue && q[k] == g.queue[k];
  }

  lemma KnownStep(g: Group, t: Event, id: string)
    ensures HasMsgId(Act(g, t).g.queue, id) <==>
            Appends(g, t, id) || (HasMsgId(g.queue, id) && !Forgets(g, t, id))
  {
    hide Act, HasMsgId;
    match t.request
    case Send(_, _, _, _) => SendKnowsId(g, t, id);
    case Cleanup => PassKnowsLess(g, t, id);
    case _ => QueueFootprint(g, t);
  }

  lemma RecognisedMore(g: Group, front: seq<Event>, t: Event, id: string)
    ensures Recognised(g, front + [t], id) <==>
            Appends(Settled(g, front), t, id) || (Recognised(g, front, id) && !Forgets(Settled(g, front), t, id))
  {
    hide Settled, Appends, Forgets;
    var ts := front + [t];
    assert ts[..|front|] == front;
    assert forall j | 0 <= j < |front| :: ts[..j] == front[..j] && ts[j] == front[j];
    if Appends(Settled(g, front), t, id) {
      assert AppendedSince(g, ts, |front|, id);
    }
    if Recognised(g, front, id) && !Forgets(Settled(g, front), t, id) {
      var k: nat :| AppendedSince(g, front, k, id);
      assert AppendedSince(g, ts, k, id);
    }
    if Recognised(g, ts, id) {
      var k: nat :| AppendedSince(g, ts, k, id);
      if k < |front| {
        assert !Forgets(Settled(g, ts[..|front|]), ts[|front|], id);
        assert AppendedSince(g, front, k, id);
      }
    }
  }

  lemma {:induction false} KnownIffAppendedSince(creator: UserId, ts: seq<Event>, id: string)
    ensures HasMsgId(Settled(NewGroup(creator), ts).queue, id) <==> Recognised(NewGroup(creator), ts, id)
    decreases |ts|
  {
    hide Act, Recognised, Appends, Forgets, HasMsgId;
    if ts == [] {
      NothingKnown(creator, id);
    } else {
      var front, t := ts[..|ts| - 1], ts[|ts| - 1];
      assert ts == front + [t];
      KnownIffAppendedSince(creator, front, id);
      RecognisedMore(NewGroup(creator), front, t, id);
      KnownStep(Settled(NewGroup(creator), front), t, id);
    }
  }

  lemma NothingKnown(creator: UserId, id: string)
    ensures !HasMsgId(NewGroup(creator).queue, id) && !Recognised(NewGroup(creator), [], id)
  {}

  /** Over any transactions in any order: a send is refused as a duplicate exactly when a message with
      its id was appended before and no pass has taken it since; so an id is appended twice only with
      such a pass in between. */
  lemma DuplicateIffAppendedSince(creator: UserId, ts: seq<Event>, send: Event)
    requires send.request.Send?
    ensures Act(Settled(NewGroup(creator), ts), send).reply == Refused(DuplicateGroupMsg) <==>
            Recognised(NewGroup(creator), ts, send.request.msgId)
    ensures Appends(Settled(NewGroup(creator), ts), send, send.request.msgId) ==>
            forall k: nat | k < |ts| && Appends(Settled(NewGroup(creator), ts[..k]), ts[k], send.request.msgId) ::
              exists j :: k < j < |ts| && Forgets(Settled(NewGroup(creator), ts[..j]), ts[j], send.request.msgId)
  {
    var g0, id := NewGroup(creator), send.request.msgId;
    KnownIffAppendedSince(creator, ts, id);
    RefusedIffKnown(Settled(g0, ts), send);
    hide Act, Settled, Appends, Forgets, HasMsgId;
    if Appends(Settled(g0, ts), send, id) {
      forall k: nat | k < |ts| && Appends(Settled(g0, ts[..k]), ts[k], id)
        ensures exists j :: k < j < |ts| && Forgets(Settled(g0, ts[..j]), ts[j], id)
      {
        assert !AppendedSince(g0, ts, k, id);
      }
    }
  }

  lemma RefusedIffKnown(g: Group, send: Event)
    requires send.request.Send?
    ensures Act(g, send).reply == Refused(DuplicateGroupMsg) <==> HasMsgId(g.queue, send.request.msgId)
    ensures Appends(g, send, send.request.msgId) <==> !HasMsgId(g.queue, send.request.msgId)
  {
    hide HasMsgId;
  }

  // ---------- a message accepted twice ----------

  lemma SendOn(g: Group, user: UserId, msgId: string, body: string, now: int)
    requires g.state == Active && user in g.members && g.members[user].joinedEpoch <= 0 && g.epoch == 0
    requires user != "" && msgId != "" && body != "" && !HasMsgId(g.queue, msgId)
    ensures var n := NextSeq(g.queue);
            Handle(g, Event(Send(user, 0, msgId, body), now)) ==
            Outcome(g.(queue := g.queue[n := MessageRow(0, user, msgId, body)]), AtSeq(n))
  {
    hide HasMsgId;
  }

  lemma AckOne(g: Group, user: UserId, now: int)
    requires g.state == Active && user in g.members && user !in g.cursors && user != "" && 1 in g.queue
    ensures Handle(g, Event(Ack(user, 1), now)).g == g.(cursors := g.cursors[user := 1])
  {
    assert 1 in g.queue.Keys;
  }

  lemma PassDropsFirst(g: Group, user: UserId, second: MessageRow, now: int)
    requires g.state == Active && g.members.Keys == {user} && CursorOf(g, user) == 1 && g.minSeq == 0
    requires g.queue.Keys == {1, 2} && g.queue[2] == second
    ensures Handle(g, Event(Cleanup, now)).g == g.(queue := map[2 := second], minSeq := 1)
  {
    assert user in g.members;
    AllAcked(g, 1);
    assert Unacked(g) == {2};
    hide Unacked, AckedByAll;
    assert |{2}| <= QUEUE_MAX;
    NewestOfFew({2}, QUEUE_MAX);
    assert Retain(g.queue, {2}) == map[2 := second];
  }

  /** The same request served twice in one epoch: a and b are sent, everybody acknowledges a, a pass takes
      it, and a is accepted again as message 3, which whoever reads on from 1 receives after b. */
  lemma SameSendAcceptedTwice(owner: UserId)
    requires owner != ""
    ensures var a, b := Event(Send(owner, 0, "a", "x"), 0), Event(Send(owner, 0, "b", "y"), 0);
            var es := [a, b, Event(Ack(owner, 1), 0), Event(Cleanup, 0)];
            && Handle(NewGroup(owner), a).reply == AtSeq(1)
            && Handle(Served(NewGroup(owner), es), a).reply == AtSeq(3)
            && Handle(Served(NewGroup(owner), es), a).g.queue ==
               map[2 := MessageRow(0, owner, "b", "y"), 3 := MessageRow(0, owner, "a", "x")]
  {
    var a, b := Event(Send(owner, 0, "a", "x"), 0), Event(Send(owner, 0, "b", "y"), 0);
    var ack, pass := Event(Ack(owner, 1), 0), Event(Cleanup, 0);
    var rowA, rowB := MessageRow(0, owner, "a", "x"), MessageRow(0, owner, "b", "y");
    hide Handle, Served, NextSeq, HasMsgId, ReclaimMessages;
    var g0 := NewGroup(owner);
    Knows(map[], "a");
    SendOn(g0, owner, "a", "x", 0);
    var g1 := Handle(g0, a).g;
    Numbers(rowA, rowB);
    Knows(map[1 := rowA], "b");
    SendOn(g1, owner, "b", "y", 0);
    var g2 := Handle(g1, b).g;
    AckOne(g2, owner, 0);
    var g3 := Handle(g2, ack).g;
    assert g3.queue.Keys == {1, 2};
    PassDropsFirst(g3, owner, rowB, 0);
    var g4 := Handle(g3, pass).g;
    Knows(map[2 := rowB], "a");
    SendOn(g4, owner, "a", "x", 0);
    FourInARow(g0, a, b, ack, pass);
  }

  lemma Knows(queue: map<nat, MessageRow>, id: string)
    requires forall k | k in queue :: queue[k].msgId != id
    ensures !HasMsgId(queue, id)
  {}

  lemma Numbers(a: MessageRow, b: MessageRow)
    ensures NextSeq(map[]) == 1 && NextSeq(map[1 := a]) == 2 && NextSeq(map[2 := b]) == 3
  {
    MaxOfOne(1);
    MaxOfOne(2);
    assert map[1 := a].Keys == {1} && map[2 := b].Keys == {2};
  }

  lemma FourInARow(g: Group, a: Event, b: Event, c: Event, d: Event)
    ensures Served(g, [a, b, c, d]) == Handle(Handle(Handle(Handle(g, a).g, b).g, c).g, d).g
  {
    hide Handle, Served;
    var es := [a, b, c, d];
    ServedNothing(g, es[..0]);
    ServedStep(g, es, 0);
    ServedStep(g, es, 1);
    ServedStep(g, es, 2);
    ServedStep(g, es, 3);
    assert es[..4] == es;
  }
}
