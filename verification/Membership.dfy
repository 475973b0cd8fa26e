/** Where members come from, and what is final once a group is dissolved. */
module Membership {
  import opened Ordered
  import opened GroupModel
  import opened GroupRequests
  import opened GroupRuns

  // ---------- provenance, in every interleaving ----------

  /** Row i of the log is a welcome addressed to u at the epoch at which u joined. */
  predicate Welcomes(g: Group, i: int, u: UserId) {
    && 0 <= i < |g.log| && u in g.members
    && g.log[i].IsWelcome() && g.log[i].target == u && g.log[i].epoch == g.members[u].joinedEpoch
  }

  ghost predicate Vouched(g: Group, u: UserId) {
    u in g.members ==>
      (u == g.creator && g.members[u].joinedEpoch == 0) || exists i :: Welcomes(g, i, u)
  }

  ghost predicate MembersWf(g: Group) {
    && |g.members| <= MEMBERS_MAX
    && forall u | u in g.members :: Vouched(g, u) && g.members[u].role != Admin
  }

  /** Nobody joins, and nobody's joining epoch changes; the log only grows. */
  ghost predicate OnlyFewer(g: Group, g': Group) {
    && g'.creator == g.creator
    && g'.members.Keys <= g.members.Keys
    && (forall u | u in g'.members ::
          g'.members[u].joinedEpoch == g.members[u].joinedEpoch &&
          (g'.members[u].role == Admin ==> g.members[u].role == Admin))
    && g.log <= g'.log
  }

  lemma FewerStaysVouched(g: Group, g': Group)
    requires MembersWf(g) && OnlyFewer(g, g')
    ensures MembersWf(g')
  {
    CardinalityOfSubset(g'.members.Keys, g.members.Keys);
    assert |g'.members| == |g'.members.Keys| && |g.members| == |g.members.Keys|;
    forall u | u in g'.members ensures Vouched(g', u) {
      assert Vouched(g, u);
      if i :| Welcomes(g, i, u) {
        assert Welcomes(g', i, u);
      }
    }
  }

  lemma NonWelcomeStep(g: Group, t: Event)
    requires !t.request.Welcome?
    ensures OnlyFewer(g, Act(g, t).g)
  {
    LogFootprint(g, t);
    MemberFootprint(g, t);
    match t.request
    case Commit(_, _, _, _, _) =>
      CommitExtendsLog(g, t);
      hide Act;
    case Leave(_, _) => DepartureOnlyFewer(g, t);
    case Kick(_, _) => DepartureOnlyFewer(g, t);
    case Decide(_, _) => DecisionOnlyFewer(g, t);
    case _ => hide Act;
  }

  lemma DepartureOnlyFewer(g: Group, t: Event)
    requires t.request.Leave? || t.request.Kick?
    ensures OnlyFewer(g, Act(g, t).g)
  {}

  lemma DecisionOnlyFewer(g: Group, t: Event)
    requires t.request.Decide?
    ensures OnlyFewer(g, Act(g, t).g)
  {
    hide NewestPending, HasOwner;
  }

  lemma CommitExtendsLog(g: Group, t: Event)
    requires t.request.Commit?
    ensures g.log <= Act(g, t).g.log
  {
  }

  /** The group has room for target, or target is in already. */
  predicate HasRoom(g: Group, target: UserId) {
    target in g.members || |g.members| + 1 <= MEMBERS_MAX
  }

  lemma WelcomeRefused(g: Group, sender: UserId, target: UserId, epoch: int, data: string)
    requires !HasRoom(g, target)
    ensures AppendWelcome(g, sender, target, epoch, data) == Outcome(g, Refused(GroupFull))
  {}

  /** after is before with one row added under a seq above all others. */
  predicate Logged(before: seq<LogRow>, after: seq<LogRow>, row: LogRow) {
    after == before + [row] && forall i | 0 <= i < |before| :: before[i].number < row.number
  }

  /** target is in, as a plain member joining at epoch unless it was in before; nobody else changes. */
  predicate Joined(before: map<UserId, MemberRow>, after: map<UserId, MemberRow>, target: UserId, epoch: int) {
    && after.Keys == before.Keys + {target}
    && (forall u | u in before :: after[u] == before[u])
    && (target !in before ==> after[target] == MemberRow(Member, epoch))
  }

  ghost predicate Welcomed(g: Group, g': Group, sender: UserId, target: UserId, epoch: int, data: string) {
    && (exists n :: Logged(g.log, g'.log, LogRow(n, epoch, "welcome", sender, target, data)))
    && Joined(g.members, g'.members, target, epoch)
    && g' == g.(log := g'.log, members := g'.members)
  }

  lemma WelcomeAccepted(g: Group, sender: UserId, target: UserId, epoch: int, data: string)
    requires HasRoom(g, target)
    ensures var o := AppendWelcome(g, sender, target, epoch, data);
            && o.reply.AtSeq?
            && Logged(g.log, o.g.log, LogRow(NextLogSeq(g.log), epoch, "welcome", sender, target, data))
            && o.g == g.(log := o.g.log, members := o.g.members)
  {}

  lemma WelcomeJoins(g: Group, sender: UserId, target: UserId, epoch: int, data: string)
    requires HasRoom(g, target)
    ensures Joined(g.members, AppendWelcome(g, sender, target, epoch, data).g.members, target, epoch)
  {
    hide Joined, NextLogSeq;
    JoinedOnce(g.members, target, epoch);
  }

  lemma JoinedOnce(members: map<UserId, MemberRow>, target: UserId, epoch: int)
    ensures Joined(members, if target in members then members else members[target := MemberRow(Member, epoch)],
                   target, epoch)
  {}

  /** A welcome is refused exactly when it would take the group above 1000 members, and then log, next
      seq and members are as before it; otherwise it logs one row under a new seq and can only add its
      target, as a plain member joining at the welcome's epoch: whoever is in already keeps role and
      epoch. */
  lemma WelcomeOnlyAdds(g: Group, sender: UserId, target: UserId, epoch: int, data: string)
    ensures var o := AppendWelcome(g, sender, target, epoch, data);
            if HasRoom(g, target) then o.reply.AtSeq? && Welcomed(g, o.g, sender, target, epoch, data)
            else o == Outcome(g, Refused(GroupFull))
  {
    hide AppendWelcome, Logged, Joined;
    if HasRoom(g, target) {
      WelcomeAccepted(g, sender, target, epoch, data);
      WelcomeJoins(g, sender, target, epoch, data);
    } else {
      WelcomeRefused(g, sender, target, epoch, data);
    }
  }

  lemma WelcomedKeepsWf(g: Group, g': Group, sender: UserId, target: UserId, epoch: int, data: string)
    requires MembersWf(g) && HasRoom(g, target) && Welcomed(g, g', sender, target, epoch, data)
    ensures MembersWf(g')
  {
    assert |g'.members.Keys| == |g'.members| && |g.members.Keys| == |g.members|;
    forall u | u in g'.members ensures Vouched(g', u) && g'.members[u].role != Admin {
      if u in g.members {
        assert Vouched(g, u);
        if i :| Welcomes(g, i, u) {
          assert Welcomes(g', i, u);
        }
      } else {
        assert Welcomes(g', |g.log|, u);
      }
    }
  }

  lemma WelcomeStep(g: Group, sender: UserId, target: UserId, epoch: int, data: string)
    requires MembersWf(g)
    ensures MembersWf(AppendWelcome(g, sender, target, epoch, data).g)
  {
    hide MembersWf, AppendWelcome, Welcomed;
    var o := AppendWelcome(g, sender, target, epoch, data);
    WelcomeOnlyAdds(g, sender, target, epoch, data);
    if HasRoom(g, target) {
      WelcomedKeepsWf(g, o.g, sender, target, epoch, data);
    }
  }

  /** In every interleaving a group has at most 1000 members, nobody is an admin, and every member
      has the creation row or a logged welcome addressed to them at the epoch they joined. */
  lemma {:induction false} MembersAreVouched(creator: UserId, ts: seq<Event>)
    ensures MembersWf(Settled(NewGroup(creator), ts))
    decreases |ts|
  {
    if ts != [] {
      var g, t := Settled(NewGroup(creator), ts[..|ts| - 1]), ts[|ts| - 1];
      MembersAreVouched(creator, ts[..|ts| - 1]);
      match t.request
      case Welcome(user, target, epoch, data) => WelcomeStep(g, user, target, epoch, data);
      case _ =>
        NonWelcomeStep(g, t);
        FewerStaysVouched(g, Act(g, t).g);
    }
  }

  /** Only a decision on a hand-over changes the row of somebody who stays. */
  predicate RowKept(g: Group, g': Group, u: UserId, roleToo: bool) {
    u in g.members && u in g'.members ==>
      g'.members[u].joinedEpoch == g.members[u].joinedEpoch && (roleToo ==> g'.members[u].role == g.members[u].role)
  }

  lemma StayingKeepsRow(g: Group, e: Event, u: UserId)
    ensures RowKept(g, Act(g, e).g, u, !e.request.Decide?)
  {
    hide AppendCommit, AppendMessage, UpsertCursor, CreateTransfer, ReclaimMessages, NewestPending, NextLogSeq;
    MemberFootprint(g, e);
  }

  /** During one membership, over any transactions in any order, the joining epoch never changes, and
      without a decision on a hand-over neither does the role: being welcomed again changes nothing. */
  lemma {:induction false} MembershipIsStable(g: Group, ts: seq<Event>, u: UserId)
    requires forall k | 0 <= k <= |ts| :: u in States(g, ts)[k].members
    ensures RowKept(g, Settled(g, ts), u, forall t | t in ts :: !t.request.Decide?)
    decreases |ts|
  {
    hide Act;
    if ts != [] {
      var front := ts[..|ts| - 1];
      assert forall k | 0 <= k <= |front| :: States(g, front)[k] == States(g, ts)[k] by {
        assert forall k | 0 <= k <= |front| :: front[..k] == ts[..k];
      }
      MembershipIsStable(g, front, u);
      StayingKeepsRow(Settled(g, front), ts[|ts| - 1], u);
      StatesChain(g, front, |front|);
      assert forall t | t in front :: t in ts;
      assert ts[|ts| - 1] in ts;
    }
  }

  // ---------- removals still owed to the ratchet tree ----------

  /** u, who is not the owner as last member, leaves: a member before and none after. */
  ghost predicate Departs(g: Group, e: Event, u: UserId) {
    && e.request.Leave? && e.request.user == u && u in g.members && u !in Act(g, e).g.members
    && !(g.members[u].role == Owner && g.members.Keys == {u})
  }

  /** The answer to a leave tells what became of the membership and the group: pendingRemoval exactly when
      the leaver is gone from a group that goes on, dissolved exactly when the group ended with it, a
      successor exactly when the owner left the group to one. */
  lemma LeaveAnswerIsTrue(g: Group, e: Event)
    requires e.request.Leave? && Act(g, e).reply.Left?
    ensures var user, o := e.request.user, Act(g, e);
            && user !in o.g.members
            && (o.reply.pendingRemoval <==> Departs(g, e, user))
            && (o.reply.dissolved <==> user in g.members && !Departs(g, e, user))
            && (o.reply.dissolved ==> o.g.state == Dissolved && o.g.members == map[])
            && (!o.reply.dissolved ==> o.g.state == g.state)
            && o.reply.successor == (if Departs(g, e, user) && IsOwner(g, user) then e.request.successor else "")
  {
    var user := e.request.user;
    if user in g.members {
      assert g.members.Keys - {user} == {} <==> g.members.Keys == {user};
      assert g.members.Keys == {user} ==> g.members - {user} == map[];
    }
  }

  /** u departed at step k and the list has not been cleared since. */
  ghost predicate OwedSince(g: Group, ts: seq<Event>, k: nat, u: UserId) {
    && k < |ts| && Departs(Settled(g, ts[..k]), ts[k], u)
    && forall j | k < j < |ts| :: !ts[j].request.ClearPendingRemovals?
  }

  ghost predicate Owed(g: Group, ts: seq<Event>, u: UserId) {
    exists k: nat :: OwedSince(g, ts, k, u)
  }

  lemma LeaverIsOwed(g: Group, e: Event, u: UserId)
    requires e.request.Leave?
    ensures u in Act(g, e).g.removals <==> Departs(g, e, u) || u in g.removals
  {
    var user := e.request.user;
    if user in g.members {
      assert g.members.Keys - {user} == {} <==> g.members.Keys == {user};
    }
  }

  lemma RemovalStep(g: Group, e: Event, u: UserId)
    ensures u in Act(g, e).g.removals <==>
            Departs(g, e, u) || (u in g.removals && !e.request.ClearPendingRemovals?)
  {
    hide AppendCommit, AppendWelcome, AppendMessage, UpsertCursor, CreateTransfer, DecideTransfer, ReclaimMessages;
    if e.request.Leave? {
      LeaverIsOwed(g, e, u);
    } else {
      RemovalFootprint(g, e);
    }
  }

  lemma RemovalFootprint(g: Group, e: Event)
    ensures !e.request.Leave? && !e.request.ClearPendingRemovals? ==> Act(g, e).g.removals == g.removals
  {
    hide Kept, NewFloor, Unacked, Retain, NextSeq, NextLogSeq, NewestPending, HasMsgId, HasCommitAt, HasOwner,
         HasPending;
  }

  lemma OwedExtends(g: Group, front: seq<Event>, e: Event, u: UserId)
    ensures Owed(g, front + [e], u) <==>
            Departs(Settled(g, front), e, u) || (Owed(g, front, u) && !e.request.ClearPendingRemovals?)
  {
    hide Settled, Departs;
    var ts := front + [e];
    assert ts[..|front|] == front;
    assert forall j | 0 <= j < |front| :: ts[..j] == front[..j] && ts[j] == front[j];
    if Departs(Settled(g, front), e, u) {
      assert OwedSince(g, ts, |front|, u);
    }
    if Owed(g, front, u) && !e.request.ClearPendingRemovals? {
      var k: nat :| OwedSince(g, front, k, u);
      assert OwedSince(g, ts, k, u);
    }
    if Owed(g, ts, u) {
      var k: nat :| OwedSince(g, ts, k, u);
      if k < |front| {
        assert !ts[|front|].request.ClearPendingRemovals?;
        assert OwedSince(g, front, k, u);
      }
    }
  }

  /** Over any transactions in any order the list of pending removals is exactly who left the group, as
      it went on, since the list was last cleared. */
  lemma {:induction false} PendingRemovalsAreTheDeparted(creator: UserId, ts: seq<Event>, u: UserId)
    ensures u in Settled(NewGroup(creator), ts).removals <==> Owed(NewGroup(creator), ts, u)
    decreases |ts|
  {
    hide Act, Owed, Departs;
    if ts == [] {
      NothingOwed(NewGroup(creator), u);
    } else {
      var front, e := ts[..|ts| - 1], ts[|ts| - 1];
      assert ts == front + [e];
      PendingRemovalsAreTheDeparted(creator, front, u);
      OwedExtends(NewGroup(creator), front, e, u);
      RemovalStep(Settled(NewGroup(creator), front), e, u);
    }
  }

  lemma NothingOwed(g: Group, u: UserId)
    ensures !Owed(g, [], u)
  {}

  // ---------- dissolution ----------

  /** g' differs from g at most in roles and in the ownership hand-overs. */
  ghost predicate Frozen(g: Group, g': Group) {
    && g' == g.(members := g'.members, transfers := g'.transfers)
    && g'.members.Keys == g.members.Keys
    && forall u | u in g.members :: g'.members[u].joinedEpoch == g.members[u].joinedEpoch
  }

  lemma DissolvedStep(g: Group, e: Event)
    requires g.state == Dissolved
    ensures Frozen(g, Handle(g, e).g)
  {
    hide Act, Guard, Frozen, Stirs;
    if Guard(g, e.request).Proceed? {
      OnlyDecisionsPass(g, e);
      FrozenStep(g, e);
    } else {
      FrozenNow(g);
    }
  }

  lemma OnlyDecisionsPass(g: Group, e: Event)
    requires g.state == Dissolved && Guard(g, e.request).Proceed?
    ensures !Stirs(g, e)
  {
    hide Act;
  }

  /** Once dissolved, a group's state, epoch, log, queue, floor, cursors, pending removals and
      membership never change again under atomic handlers and cleanup passes; a decision on a
      hand-over can still move roles. */
  lemma {:induction false} DissolutionIsFinal(g: Group, es: seq<Event>)
    requires g.state == Dissolved
    ensures Frozen(g, Served(g, es))
    decreases |es|
  {
    if es != [] {
      DissolutionIsFinal(g, es[..|es| - 1]);
      DissolvedStep(Served(g, es[..|es| - 1]), es[|es| - 1]);
    }
  }

  /** A transaction that still writes something final: everything but hand-overs and dissolving, unless
      it is refused or finds nothing to change. */
  ghost predicate Stirs(g: Group, e: Event) {
    match e.request
    case Commit(_, parent, epoch, _, _) => parent == g.epoch && epoch > g.epoch && !HasCommitAt(g.log, epoch)
    case Welcome(_, target, _, _) => HasRoom(g, target)
    case Send(_, _, msgId, _) => !HasMsgId(g.queue, msgId)
    case Ack(user, lastSeq) => user !in g.cursors || g.cursors[user] < lastSeq
    case Leave(user, successor) =>
      user in g.members &&
      (g.members[user].role == Owner && g.members.Keys != {user} ==>
         successor != "" && successor != user && successor in g.members)
    case Kick(_, target) => target in g.members || target in g.cursors
    case ClearPendingRemovals(_) => g.removals != {}
    case Cleanup => Kept(g) != g.queue.Keys || NewFloor(g) != g.minSeq
    case _ => false
  }

  lemma LogStirred(g: Group, e: Event)
    requires e.request.Commit? || e.request.Welcome? || e.request.Send?
    ensures Frozen(g, Act(g, e).g) <==> !Stirs(g, e)
  {
    hide NextLogSeq;
    var g' := Act(g, e).g;
    if g'.log == g.log {
      assert |g'.log| == |g.log|;
    }
    if e.request.Send? && Stirs(g, e) {
      assert NextSeq(g.queue) in g'.queue && NextSeq(g.queue) !in g.queue;
    }
  }

  lemma MembersStirred(g: Group, e: Event)
    requires e.request.Ack? || e.request.Leave? || e.request.Kick?
    ensures Frozen(g, Act(g, e).g) <==> !Stirs(g, e)
  {
    var g' := Act(g, e).g;
    match e.request
    case Ack(user, lastSeq) =>
      if !Stirs(g, e) { assert g.cursors[user := g.cursors[user]] == g.cursors; }
    case Leave(user, _) =>
      assert user in g.members ==> (g.members.Keys - {user} == {} <==> g.members.Keys == {user});
      if Stirs(g, e) { assert user in g.members.Keys && user !in g'.members.Keys; }
    case Kick(_, target) =>
      if !Stirs(g, e) {
        assert g'.members == g.members && g'.cursors == g.cursors;
      } else {
        assert target !in g'.members.Keys && target !in g'.cursors;
      }
    case _ =>
  }

  /** A transaction that reaches a dissolved group late changes something final exactly when it stirs. */
  lemma FrozenStep(g: Group, e: Event)
    requires g.state == Dissolved
    ensures Frozen(g, Act(g, e).g) <==> !Stirs(g, e)
  {
    hide AppendCommit, AppendWelcome, AppendMessage, UpsertCursor, LeaveGroup, RemoveMember, CreateTransfer,
         ReclaimMessages, HasRoom, NewestPending, Frozen, Stirs;
    if e.request.Commit? || e.request.Welcome? || e.request.Send? {
      LogStirred(g, e);
    } else if e.request.Ack? || e.request.Leave? || e.request.Kick? {
      MembersStirred(g, e);
    } else if e.request.Cleanup? {
      PassStirred(g, e);
    } else {
      HandOverStirred(g, e);
    }
  }

  lemma PassStirred(g: Group, e: Event)
    requires e.request.Cleanup?
    ensures Frozen(g, Act(g, e).g) <==> !Stirs(g, e)
  {
    hide Kept, NewFloor, Unacked, ReclaimMessages;
    PassResult(g);
    var g' := Act(g, e).g;
    if Kept(g) == g.queue.Keys {
      assert g'.queue == g.queue;
    }
  }

  lemma PassResult(g: Group)
    ensures var g' := ReclaimMessages(g).g;
            && g'.queue.Keys == Kept(g) && g'.minSeq == NewFloor(g)
            && forall k | k in g'.queue :: g'.queue[k] == g.queue[k]
  {
    hide Kept, NewFloor, Unacked;
  }

  lemma HandOverStirred(g: Group, e: Event)
    requires g.state == Dissolved
    requires e.request.StartTransfer? || e.request.Decide? || e.request.Dissolve? ||
             e.request.ClearPendingRemovals? || e.request.AskToJoin?
    ensures Frozen(g, Act(g, e).g) <==> !Stirs(g, e)
  {
    hide NewestPending, HasOwner;
  }

  lemma FrozenTogether(g: Group, h: Group, h': Group)
    requires Frozen(g, h)
    ensures Frozen(g, h') <==> Frozen(h, h')
    ensures h.state == g.state
  {}

  /** Whatever transactions still reach a dissolved group, however old their checks: everything final
      stays as it is throughout exactly when none of them stirs. */
  lemma FrozenIffNothingStirs(g: Group, ts: seq<Event>)
    requires g.state == Dissolved
    ensures Throughout(States(g, ts), h => Frozen(g, h)) <==> Never(States(g, ts), ts, Stirs)
  {
    hide Act, Frozen, Stirs, Throughout, Never;
    var gs, frozen := States(g, ts), (h: Group) => Frozen(g, h);
    StatesChain(g, ts, 0);
    FrozenNow(g);
    forall k | 0 <= k < |ts| ensures BreaksAt(gs, ts, frozen, Stirs, k) {
      StatesChain(g, ts, k);
      if Frozen(g, gs[k]) {
        FrozenTogether(g, gs[k], gs[k + 1]);
        FrozenStep(gs[k], ts[k]);
      }
    }
    ThroughoutIffNever(gs, ts, frozen, Stirs);
  }

  lemma FrozenNow(g: Group)
    ensures Frozen(g, g)
  {}

  /** Apart from its guard a send can still reach a dissolved group. */
  lemma SplitSendReachesDissolvedGroup(owner: UserId, now: int)
    requires owner != ""
    ensures var g := NewGroup(owner);
            var send := Event(Send(owner, 0, "m", "x"), now);
            var gone := Handle(g, Event(Dissolve(owner), now)).g;
            && Guard(g, send.request) == Proceed
            && gone.state == Dissolved && !Frozen(gone, Act(gone, send).g)
  {
    var gone := Handle(NewGroup(owner), Event(Dissolve(owner), now)).g;
    assert 1 in Act(gone, Event(Send(owner, 0, "m", "x"), now)).g.queue;
  }
}
