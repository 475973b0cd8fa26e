/** When the queue's sequence numbers mean what clients take them to mean: each new message numbered
    above every earlier one, and the oldest retained message just above the floor. */
module Numbering {
  import opened Ordered
  import opened GroupModel
  import opened GroupRequests
  import opened GroupRuns
  import opened Retention
  import opened MessageQueue

  ghost function IssuedBy(g: Group, t: Event): seq<nat> {
    if t.request.Send? && Act(g, t).reply.AtSeq? then [Act(g, t).reply.number] else []
  }

  /** The seqs issued during ts, in the order in which they were issued. */
  ghost function Issued(g: Group, ts: seq<Event>): seq<nat>
    decreases |ts|
  {
    if ts == [] then [] else
      Issued(g, ts[..|ts| - 1]) + IssuedBy(Settled(g, ts[..|ts| - 1]), ts[|ts| - 1])
  }

  function Last(q: seq<nat>): nat {
    if q == [] then 0 else q[|q| - 1]
  }

  /** The queue has been emptied by reclaiming: the next append numbers from 1 again. */
  ghost predicate Emptied(g: Group) {
    g.queue.Keys == {} && g.minSeq > 0
  }

  /** No message of ts is appended to an emptied queue. */
  ghost predicate NoRestart(g: Group, ts: seq<Event>)
    decreases |ts|
  {
    ts == [] ||
    (NoRestart(g, ts[..|ts| - 1]) && !(ts[|ts| - 1].request.Send? && Emptied(Settled(g, ts[..|ts| - 1]))))
  }

  /** The oldest retained message is the one just above the floor. */
  ghost predicate Tight(g: Group) {
    g.queue.Keys != {} ==> MinOf(g.queue.Keys) == g.minSeq + 1
  }

  /** The retained seqs are one interval from just above the floor up to m; when there are none, the
      floor is at m. */
  ghost predicate Tidy(keys: set<nat>, floor: nat, m: nat) {
    && Contiguous(keys)
    && if keys == {} then floor == m else MaxOf(keys) == m && MinOf(keys) == floor + 1
  }

  /** m is the last seq issued: the queue is tidy up to it, and no cursor is beyond it. */
  ghost predicate Numbered(g: Group, m: nat) {
    (forall u | u in g.cursors :: g.cursors[u] <= m) && Tidy(g.queue.Keys, g.minSeq, m)
  }

  // ---------- one step ----------

  lemma AckedWithin(g: Group, m: nat)
    requires Numbered(g, m)
    ensures AckedByAll(g) <= m
  {
    if |g.members| != 0 {
      var u :| u in g.members && CursorOf(g, u) == SafeSeq(g);
    }
  }

  lemma ReclaimKeepsNumbering(g: Group, m: nat)
    requires Numbered(g, m)
    ensures Numbered(ReclaimMessages(g).g, m)
  {
    hide Kept, NewFloor, Unacked, Tidy;
    assert ReclaimMessages(g).g.queue.Keys == Kept(g);
    if Kept(g) == {} {
      EmptiedAtTop(g, m);
    } else {
      SuffixIsTight(g, m);
    }
  }

  lemma EmptiedAtTop(g: Group, m: nat)
    requires Numbered(g, m) && Kept(g) == {}
    ensures Tidy(Kept(g), NewFloor(g), m)
  {
    hide Newest;
    assert IsNewest({}, Unacked(g), QUEUE_MAX);
    assert Unacked(g) == {};
    AckedWithin(g, m);
    if g.queue.Keys != {} {
      assert m in g.queue.Keys && m !in Unacked(g);
      assert MinOf(g.queue.Keys) <= m;
    }
  }

  lemma SuffixIsTight(g: Group, m: nat)
    requires Numbered(g, m) && Kept(g) != {}
    ensures Tidy(Kept(g), NewFloor(g), m)
  {
    hide Kept, NewFloor, Unacked;
    var keys, kept, low := g.queue.Keys, Kept(g), MinOf(Kept(g));
    KeptIsAbove(g, low, m);
    KeptIsInterval(g);
    assert low in keys && low > g.minSeq;
    FloorIsTight(g, low);
    if low - 1 in keys {
      FloorIsTight(g, low - 1);
    } else {
      LowestIsFirst(keys, low);
    }
  }

  lemma LowestIsFirst(keys: set<nat>, low: nat)
    requires Contiguous(keys) && low in keys && (low > 0 ==> low - 1 !in keys)
    ensures low == MinOf(keys)
  {
    var first := MinOf(keys);
    if first < low {
      assert first <= low - 1 <= low;
    }
  }

  lemma AppendKeepsNumbering(g: Group, row: MessageRow, m: nat)
    requires Numbered(g, m) && !Emptied(g) && !HasMsgId(g.queue, row.msgId)
    ensures NextSeq(g.queue) == m + 1
    ensures Numbered(AppendMessage(g, row).g, m + 1)
  {
    assert AppendMessage(g, row).g.queue.Keys == g.queue.Keys + {m + 1};
    AppendTop(g.queue.Keys, g.minSeq, m);
  }

  lemma AppendTop(keys: set<nat>, floor: nat, m: nat)
    requires Tidy(keys, floor, m)
    ensures Tidy(keys + {m + 1}, floor, m + 1)
  {
    var more := keys + {m + 1};
    forall a, b, c | a in more && b in more && a <= c <= b ensures c in more {
      if c <= m && keys != {} { assert a in keys && m in keys; }
    }
    if keys != {} { assert MinOf(keys) in more && MinOf(more) in more; }
  }

  /** t issues nothing, or just the next number after m; m becomes the last number issued. */
  ghost predicate NumbersNext(g: Group, t: Event, m: nat) {
    && (IssuedBy(g, t) == [] || IssuedBy(g, t) == [m + 1])
    && Numbered(Act(g, t).g, m + |IssuedBy(g, t)|)
  }

  lemma SendStep(g: Group, t: Event, m: nat)
    requires Numbered(g, m) && t.request.Send? && !Emptied(g)
    ensures NumbersNext(g, t, m)
  {
    var row := MessageRow(t.request.epoch, t.request.user, t.request.msgId, t.request.body);
    assert Act(g, t) == AppendMessage(g, row);
    if !HasMsgId(g.queue, row.msgId) {
      AppendKeepsNumbering(g, row, m);
    }
  }

  lemma AckStep(g: Group, t: Event, m: nat)
    requires Numbered(g, m) && t.request.Ack? && t.request.lastSeq <= m
    ensures NumbersNext(g, t, m)
  {
    assert Act(g, t) == UpsertCursor(g, t.request.user, t.request.lastSeq);
  }

  lemma OtherStep(g: Group, t: Event, m: nat)
    requires Numbered(g, m) && !t.request.Send? && !t.request.Ack? && !t.request.Cleanup?
    ensures NumbersNext(g, t, m)
  {
    hide Act, Tidy;
    QueueFootprint(g, t);
    CursorsShrink(g, t);
  }

  lemma NumberingStep(g: Group, t: Event, m: nat)
    requires Numbered(g, m)
    requires !(t.request.Send? && Emptied(g))
    requires t.request.Ack? ==> t.request.lastSeq <= m
    ensures NumbersNext(g, t, m)
  {
    hide Act, Numbered, NumbersNext, Emptied;
    match t.request
    case Send(_, _, _, _) => SendStep(g, t, m);
    case Ack(_, _) => AckStep(g, t, m);
    case Cleanup => PassStep(g, t, m);
    case _ => OtherStep(g, t, m);
  }

  lemma PassStep(g: Group, t: Event, m: nat)
    requires Numbered(g, m) && t.request.Cleanup?
    ensures NumbersNext(g, t, m)
  {
    hide Numbered, ReclaimMessages;
    ReclaimKeepsNumbering(g, m);
  }

  lemma CursorsShrink(g: Group, t: Event)
    requires !t.request.Ack?
    ensures forall u | u in Act(g, t).g.cursors :: u in g.cursors && Act(g, t).g.cursors[u] == g.cursors[u]
  {
    MemberFootprint(g, t);
  }

  // ---------- prefixes of a run ----------

  lemma {:induction false} Prefixes(g: Group, ts: seq<Event>, k: nat)
    requires k <= |ts|
    ensures Interleaving(g, ts) ==> Interleaving(g, ts[..k])
    ensures NoRestart(g, ts) ==> NoRestart(g, ts[..k])
    ensures Issued(g, ts[..k]) <= Issued(g, ts)
    decreases |ts|
  {
    if k == |ts| {
      assert ts[..k] == ts;
    } else {
      assert ts[..|ts| - 1][..k] == ts[..k];
      Prefixes(g, ts[..|ts| - 1], k);
    }
  }

  lemma IncreasingPrefix(p: seq<nat>, q: seq<nat>)
    requires Increasing(q) && p <= q
    ensures Increasing(p) && Last(p) <= Last(q)
  {
    if p != [] && |p| < |q| {
      assert q[|p| - 1] < q[|q| - 1];
    }
  }

  // ---------- whole runs ----------

  /** The issued seqs rise, and the last of them is where the queue's numbering stands. */
  ghost predicate NumberingHolds(g0: Group, ts: seq<Event>) {
    Increasing(Issued(g0, ts)) && Numbered(Settled(g0, ts), Last(Issued(g0, ts)))
  }

  lemma OneMore(g0: Group, front: seq<Event>, t: Event)
    ensures Settled(g0, front + [t]) == Act(Settled(g0, front), t).g
    ensures Issued(g0, front + [t]) == Issued(g0, front) + IssuedBy(Settled(g0, front), t)
  {
    assert (front + [t])[..|front|] == front;
  }

  lemma LastRises(q: seq<nat>, more: seq<nat>)
    requires Increasing(q) && (more == [] || more == [Last(q) + 1])
    ensures Increasing(q + more) && Last(q + more) == Last(q) + |more|
  {
    assert forall i | 0 <= i < |q| :: q[i] <= Last(q);
  }

  lemma NumberingExtends(g0: Group, front: seq<Event>, t: Event)
    requires NumberingHolds(g0, front)
    requires !(t.request.Send? && Emptied(Settled(g0, front)))
    requires t.request.Ack? ==> t.request.lastSeq <= Last(Issued(g0, front))
    ensures NumberingHolds(g0, front + [t])
  {
    hide Act, Numbered, IssuedBy, Settled, Issued, Increasing, Emptied;
    NumberingStep(Settled(g0, front), t, Last(Issued(g0, front)));
    LastRises(Issued(g0, front), IssuedBy(Settled(g0, front), t));
    OneMore(g0, front, t);
  }

  lemma NumberingAtCreation(creator: UserId)
    ensures NumberingHolds(NewGroup(creator), [])
  {}

  lemma {:induction false} NumberingWithoutRestart(creator: UserId, ts: seq<Event>)
    requires Interleaving(NewGroup(creator), ts) && NoRestart(NewGroup(creator), ts)
    ensures NumberingHolds(NewGroup(creator), ts)
    decreases |ts|, 0
  {
    hide Act, NumberingHolds;
    if ts == [] {
      NumberingAtCreation(creator);
    } else {
      var front, t := ts[..|ts| - 1], ts[|ts| - 1];
      assert front + [t] == ts;
      NumberingWithoutRestart(creator, front);
      if t.request.Ack? {
        AckWithinIssued(creator, front, t.request.lastSeq);
      }
      NumberingExtends(NewGroup(creator), front, t);
    }
  }

  lemma {:induction false} AckWithinIssued(creator: UserId, front: seq<Event>, lastSeq: int)
    requires Interleaving(NewGroup(creator), front) && NoRestart(NewGroup(creator), front)
    requires SeqWasQueued(NewGroup(creator), front, lastSeq)
    requires NumberingHolds(NewGroup(creator), front)
    ensures lastSeq <= Last(Issued(NewGroup(creator), front))
    decreases |front|, 1
  {
    var g0 := NewGroup(creator);
    var k :| 0 <= k <= |front| && lastSeq <= TopSeq(Settled(g0, front[..k]).queue);
    Prefixes(g0, front, k);
    NumberingWithoutRestart(creator, front[..k]);
    IncreasingPrefix(Issued(g0, front[..k]), Issued(g0, front));
  }

  lemma SendWhenEmptied(g: Group, t: Event)
    requires t.request.Send? && Emptied(g)
    ensures IssuedBy(g, t) == [1] && !Tight(Act(g, t).g)
  {
    assert g.queue == map[];
    assert Act(g, t).g.queue.Keys == {1};
  }

  lemma OneNotAbove(q: seq<nat>)
    requires Last(q) > 0
    ensures !Increasing(q + [1])
  {
    assert (q + [1])[|q| - 1] >= (q + [1])[|q|];
  }

  lemma RestartBreaksNumbering(creator: UserId, front: seq<Event>, t: Event)
    requires Interleaving(NewGroup(creator), front) && NoRestart(NewGroup(creator), front)
    requires t.request.Send? && Emptied(Settled(NewGroup(creator), front))
    ensures !Increasing(Issued(NewGroup(creator), front + [t]))
    ensures !Tight(Settled(NewGroup(creator), front + [t]))
  {
    var g0 := NewGroup(creator);
    OneMore(g0, front, t);
    NumberingWithoutRestart(creator, front);
    SendWhenEmptied(Settled(g0, front), t);
    OneNotAbove(Issued(g0, front));
  }

  lemma RestartShows(creator: UserId, ts: seq<Event>)
    requires Interleaving(NewGroup(creator), ts) && !NoRestart(NewGroup(creator), ts)
    ensures !Increasing(Issued(NewGroup(creator), ts))
    ensures exists k | 0 <= k <= |ts| :: !Tight(Settled(NewGroup(creator), ts[..k]))
  {
    hide *;
    var g0 := NewGroup(creator);
    var n := FirstRestart(g0, ts);
    assert ts[..n + 1] == ts[..n] + [ts[n]];
    Prefixes(g0, ts, n);
    Prefixes(g0, ts, n + 1);
    RestartBreaksNumbering(creator, ts[..n], ts[n]);
    if Increasing(Issued(g0, ts)) {
      IncreasingPrefix(Issued(g0, ts[..n + 1]), Issued(g0, ts));
    }
  }

  /** In every interleaving: the seqs issued rise strictly, and at every moment the oldest retained
      message is min_seq + 1, exactly when no message is appended while the queue stands emptied
      (no rows and min_seq above 0). */
  lemma NumberingIffNoRestart(creator: UserId, ts: seq<Event>)
    requires Interleaving(NewGroup(creator), ts)
    ensures Increasing(Issued(NewGroup(creator), ts)) <==> NoRestart(NewGroup(creator), ts)
    ensures (forall k | 0 <= k <= |ts| :: Tight(Settled(NewGroup(creator), ts[..k]))) <==>
            NoRestart(NewGroup(creator), ts)
  {
    hide Act, Settled, Issued, Increasing, Interleaving;
    var g0 := NewGroup(creator);
    if NoRestart(g0, ts) {
      NumberingWithoutRestart(creator, ts);
      forall k | 0 <= k <= |ts| ensures Tight(Settled(g0, ts[..k])) {
        Prefixes(g0, ts, k);
        NumberingWithoutRestart(creator, ts[..k]);
      }
    } else {
      RestartShows(creator, ts);
    }
  }

  ghost function FirstRestart(g: Group, ts: seq<Event>): (n: nat)
    requires !NoRestart(g, ts)
    ensures n < |ts| && NoRestart(g, ts[..n])
    ensures ts[n].request.Send? && Emptied(Settled(g, ts[..n]))
    decreases |ts|
  {
    var front := ts[..|ts| - 1];
    if NoRestart(g, front) then |ts| - 1
    else
      var n := FirstRestart(g, front);
      assert front[..n] == ts[..n];
      n
  }

  // ---------- runs that never empty the queue ----------

  /** No reclaim pass of ts turns a non-empty queue into an empty one. */
  ghost predicate NeverEmptied(g: Group, ts: seq<Event>)
    decreases |ts|
  {
    ts == [] ||
    (NeverEmptied(g, ts[..|ts| - 1]) &&
     (Settled(g, ts[..|ts| - 1]).queue.Keys != {} ==> Settled(g, ts).queue.Keys != {}))
  }

  /** If no pass ever empties the queue then no append meets an emptied queue, so the numbering
      holds throughout. */
  lemma {:induction false} NeverEmptiedNeverRestarts(creator: UserId, ts: seq<Event>)
    requires Interleaving(NewGroup(creator), ts) && NeverEmptied(NewGroup(creator), ts)
    ensures NoRestart(NewGroup(creator), ts) && NumberingHolds(NewGroup(creator), ts)
    ensures !Emptied(Settled(NewGroup(creator), ts))
    decreases |ts|
  {
    var g0 := NewGroup(creator);
    if ts != [] {
      var front := ts[..|ts| - 1];
      NeverEmptiedNeverRestarts(creator, front);
      NumberingWithoutRestart(creator, ts);
      NumberingWithoutRestart(creator, front);
      if Settled(g0, ts).queue.Keys == {} {
        LastStaysZero(g0, front, ts[|ts| - 1]);
      }
    }
  }

  lemma LastStaysZero(g0: Group, front: seq<Event>, t: Event)
    requires Settled(g0, front).queue.Keys == {} && !Emptied(Settled(g0, front))
    requires NumberingHolds(g0, front) && NumberingHolds(g0, front + [t])
    requires Settled(g0, front + [t]).queue.Keys == {}
    ensures Settled(g0, front + [t]).minSeq == 0
  {
    assert (front + [t])[..|front|] == front;
    var g := Settled(g0, front);
    assert IssuedBy(g, t) == [] by {
      if t.request.Send? { assert Act(g, t).g.queue.Keys != {} || !Act(g, t).reply.AtSeq?; }
    }
    assert Issued(g0, front + [t]) == Issued(g0, front);
  }

  // ---------- a run that restarts ----------

  lemma MaxOfOne(n: nat)
    ensures MaxOf({n}) == n
  {}

  lemma AllAcked(g: Group, n: nat)
    requires g.members != map[] && n > 0
    requires forall u | u in g.members :: CursorOf(g, u) == n
    ensures AckedByAll(g) == n
  {
    assert |g.members| != 0 by { assert g.members.Keys != {} by { var u :| u in g.members; } }
    var u :| u in g.members && CursorOf(g, u) == SafeSeq(g);
  }

  lemma FirstWelcome(owner: UserId, member: UserId)
    requires owner != "" && member != "" && owner != member
    ensures var g' := Handle(NewGroup(owner), Event(Welcome(owner, member, 0, "w"), 0)).g;
            && g'.members == map[owner := MemberRow(Owner, 0), member := MemberRow(Member, 0)]
            && g' == NewGroup(owner).(members := g'.members, log := g'.log)
  {}

  lemma SendToEmpty(g: Group, user: UserId, msgId: string, body: string, now: int)
    requires g.state == Active && user in g.members && g.members[user].joinedEpoch <= g.epoch
    requires user != "" && msgId != "" && body != "" && g.queue == map[]
    ensures Handle(g, Event(Send(user, g.epoch, msgId, body), now)) ==
            Outcome(g.(queue := map[1 := MessageRow(g.epoch, user, msgId, body)]), AtSeq(1))
  {}

  lemma AckFirst(g: Group, user: UserId, now: int)
    requires g.state == Active && user in g.members && user !in g.cursors && user != ""
    requires g.queue.Keys == {1}
    ensures Handle(g, Event(Ack(user, 1), now)).g == g.(cursors := g.cursors[user := 1])
  {
    MaxOfOne(1);
  }

  lemma CleanupDropsFirst(g: Group, now: int)
    requires g.state == Active && g.members != map[] && g.queue.Keys == {1} && g.minSeq <= 1
    requires forall u | u in g.members :: CursorOf(g, u) == 1
    ensures Handle(g, Event(Cleanup, now)).g == g.(queue := map[], minSeq := 1)
  {
    AllAcked(g, 1);
    assert Unacked(g) == {};
    assert Kept(g) == {};
  }

  /** Two members acknowledge the only message and a pass drops it. */
  lemma AckedByBoth(g: Group, owner: UserId, member: UserId)
    requires g.state == Active && g.members.Keys == {owner, member} && g.cursors == map[]
    requires owner != "" && member != "" && owner != member
    requires g.queue.Keys == {1} && g.minSeq == 0
    ensures var g1 := Handle(g, Event(Ack(owner, 1), 2)).g;
            var g2 := Handle(g1, Event(Ack(member, 1), 3)).g;
            Handle(g2, Event(Cleanup, 4)).g == g.(cursors := map[owner := 1, member := 1], queue := map[], minSeq := 1)
  {
    hide Handle, ReclaimMessages, AppendMessage;
    AckFirst(g, owner, 2);
    var g1 := Handle(g, Event(Ack(owner, 1), 2)).g;
    AckFirst(g1, member, 3);
    var g2 := Handle(g1, Event(Ack(member, 1), 3)).g;
    assert owner in g2.members;
    CleanupDropsFirst(g2, 4);
  }

  /** The owner and a member acknowledge message a, a pass empties the queue, the owner sends b: b is
      accepted with seq 1 again, at the floor, where no listing shows it, and the next pass drops it
      although the member could never have received it. */
  lemma RestartLosesAMessage(owner: UserId, member: UserId)
    requires owner != "" && member != "" && owner != member
    ensures var es := [Event(Welcome(owner, member, 0, "w"), 0), Event(Send(owner, 0, "a", "x"), 1),
                       Event(Ack(owner, 1), 2), Event(Ack(member, 1), 3), Event(Cleanup, 4),
                       Event(Send(owner, 0, "b", "y"), 5), Event(Cleanup, 6)];
            var sent := Served(NewGroup(owner), es[..6]);
            && sent.queue == map[1 := MessageRow(0, owner, "b", "y")] && sent.minSeq == 1
            && Served(NewGroup(owner), es) == sent.(queue := map[])
  {
    var es := [Event(Welcome(owner, member, 0, "w"), 0), Event(Send(owner, 0, "a", "x"), 1),
               Event(Ack(owner, 1), 2), Event(Ack(member, 1), 3), Event(Cleanup, 4),
               Event(Send(owner, 0, "b", "y"), 5), Event(Cleanup, 6)];
    var g0 := NewGroup(owner);
    hide Handle, AppendMessage, Served, ReclaimMessages;
    FirstWelcome(owner, member);
    var g1 := Handle(g0, es[0]).g;
    SendToEmpty(g1, owner, "a", "x", 1);
    var g2 := Handle(g1, es[1]).g;
    AckedByBoth(g2, owner, member);
    var g5 := Handle(Handle(Handle(g2, es[2]).g, es[3]).g, es[4]).g;
    SendToEmpty(g5, owner, "b", "y", 5);
    var g6 := Handle(g5, es[5]).g;
    CleanupDropsFirst(g6, 6);
    SevenServed(g0, es);
  }

  lemma SevenServed(g: Group, es: seq<Event>)
    requires |es| == 7
    ensures var g5 := Handle(Handle(Handle(Handle(Handle(g, es[0]).g, es[1]).g, es[2]).g, es[3]).g, es[4]).g;
            && Served(g, es[..6]) == Handle(g5, es[5]).g
            && Served(g, es) == Handle(Handle(g5, es[5]).g, es[6]).g
  {
    hide Handle, Served;
    ServedNothing(g, es[..0]);
    ServedStep(g, es, 0);
    ServedStep(g, es, 1);
    ServedStep(g, es, 2);
    ServedStep(g, es, 3);
    ServedStep(g, es, 4);
    ServedStep(g, es, 5);
    ServedStep(g, es, 6);
    assert es[..7] == es;
  }

  lemma ServedNothing(g: Group, es: seq<Event>)
    requires es == []
    ensures Served(g, es) == g
  {}

  lemma ServedStep(g: Group, es: seq<Event>, k: nat)
    requires k < |es|
    ensures Served(g, es[..k + 1]) == Handle(Served(g, es[..k]), es[k]).g
  {
    assert es[..k + 1][..k] == es[..k];
  }

  // ---------- the repaired numbering ----------

  /** AppendGroupMessage numbering above the floor as well as above the retained rows. */
  ghost function AppendAboveFloor(g: Group, row: MessageRow): Outcome {
    if HasMsgId(g.queue, row.msgId) then Outcome(g, Refused(DuplicateGroupMsg))
    else
      var n := Max(NextSeq(g.queue), g.minSeq + 1);
      Outcome(g.(queue := g.queue[n := row]), AtSeq(n))
  }

  /** With that change a send always issues the next number after the last one issued, emptied queue
      or not, so the numbering needs no side condition. */
  lemma RepairedAppendKeepsNumbering(g: Group, row: MessageRow, m: nat)
    requires Numbered(g, m) && !HasMsgId(g.queue, row.msgId)
    ensures AppendAboveFloor(g, row).reply == AtSeq(m + 1)
    ensures Numbered(AppendAboveFloor(g, row).g, m + 1)
  {
    if g.queue.Keys != {} {
      assert MinOf(g.queue.Keys) <= MaxOf(g.queue.Keys);
    }
    assert AppendAboveFloor(g, row).g.queue.Keys == g.queue.Keys + {m + 1};
    AppendTop(g.queue.Keys, g.minSeq, m);
  }
}
