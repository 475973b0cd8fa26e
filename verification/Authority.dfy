/** Who can change what in a group: for each column of its rows, exactly which served request changes it,
    and what a refusal tells. Nothing here mentions a handler's own checks. */
module Authority {
  import opened Ordered
  import opened GroupModel
  import opened GroupRequests
  import opened GroupRuns

  predicate IsActiveMember(g: Group, u: UserId) {
    g.state == Active && u != "" && u in g.members
  }

  predicate IsActiveOwner(g: Group, u: UserId) {
    IsActiveMember(g, u) && g.members[u].role == Owner
  }

  predicate IsActiveManager(g: Group, u: UserId) {
    IsActiveMember(g, u) && g.members[u].role != Member
  }

  // ---------- the epoch and the log ----------

  /** A commit by an owner or admin that extends the current epoch by an epoch not in the log. */
  predicate Advances(g: Group, r: Request) {
    && r.Commit? && IsActiveManager(g, r.user) && r.data != ""
    && r.parent == g.epoch && r.epoch > g.epoch
    && forall i | 0 <= i < |g.log| :: g.log[i].epoch == r.epoch ==> g.log[i].kind == "welcome"
  }

  /** The epoch moves exactly for such a commit, and to its epoch. */
  lemma EpochMovesIff(g: Group, e: Event)
    ensures Handle(g, e).g.epoch != g.epoch <==> Advances(g, e.request)
    ensures Advances(g, e.request) ==> Handle(g, e).g.epoch == e.request.epoch
  {
    if e.request.Commit? {
      CommitServed(g, e);
    } else {
      hide Act, Guard;
      LogFootprint(g, e);
    }
  }

  lemma CommitServed(g: Group, e: Event)
    requires e.request.Commit?
    ensures if Advances(g, e.request) then Handle(g, e).g.epoch == e.request.epoch else Handle(g, e).g == g
  {
    hide NextLogSeq;
  }

  /** A row is logged exactly for such a commit, or for a welcome by an owner or admin that has room. */
  lemma LogGrowsIff(g: Group, e: Event)
    ensures Handle(g, e).g.log != g.log <==> Advances(g, e.request) || Invites(g, e.request)
    ensures Handle(g, e).g.log != g.log ==>
              exists row: LogRow :: Handle(g, e).g.log == g.log + [row] && row.sender == e.request.user &&
                                    row.data == e.request.data && row.epoch == e.request.epoch
  {
    hide Advances;
    if e.request.Commit? || e.request.Welcome? {
      RowLogged(g, e);
    } else {
      hide Act, Guard;
      LogFootprint(g, e);
      NeitherLogs(g, e.request);
    }
  }

  lemma NeitherLogs(g: Group, r: Request)
    ensures Advances(g, r) ==> r.Commit?
    ensures Invites(g, r) ==> r.Welcome?
  {}

  lemma RowLogged(g: Group, e: Event)
    requires e.request.Commit? || e.request.Welcome?
    ensures var r := e.request;
            if Advances(g, r) || Invites(g, r) then
              exists row: LogRow :: Handle(g, e).g.log == g.log + [row] && row.sender == r.user &&
                                    row.data == r.data && row.epoch == r.epoch
            else Handle(g, e).g == g
    ensures Handle(g, e).g.log == g.log || |Handle(g, e).g.log| == |g.log| + 1
  {
    hide NextLogSeq;
    var r := e.request;
    if Advances(g, r) || Invites(g, r) {
      var row := LogRow(NextLogSeq(g.log), r.epoch, if r.Commit? then r.kind else "welcome", r.user,
                        if r.Commit? then "" else r.target, r.data);
      assert Handle(g, e).g.log == g.log + [row];
    }
  }

  // ---------- members ----------

  /** A welcome by an owner or admin, for somebody who is in already or for whom there is room. */
  predicate Invites(g: Group, r: Request) {
    && r.Welcome? && IsActiveManager(g, r.user) && r.target != "" && r.data != ""
    && (r.target in g.members || |g.members| < 1000)
  }

  /** u becomes a member exactly when it is so invited, and then joins at the welcome's epoch as a plain
      member. */
  lemma JoinsIff(g: Group, e: Event, u: UserId)
    requires u !in g.members
    ensures u in Handle(g, e).g.members <==> Invites(g, e.request) && e.request.target == u
    ensures u in Handle(g, e).g.members ==> Handle(g, e).g.members[u] == MemberRow(Member, e.request.epoch)
  {
    match e.request
    case Welcome(_, _, _, _) => hide NextLogSeq;
    case Leave(_, _) =>
    case Kick(_, _) =>
    case Decide(_, _) => hide NewestPending, HasOwner;
    case _ =>
      hide Act, Guard;
      MemberFootprint(g, e);
  }

  /** u leaves: as no owner, as the only member, or to a successor among the other members. */
  predicate Departs(g: Group, r: Request, u: UserId) {
    && r.Leave? && r.user == u && IsActiveMember(g, u)
    && (g.members[u].role == Owner && g.members.Keys != {u} ==>
          r.successor != "" && r.successor != u && r.successor in g.members)
  }

  /** An owner removes u, who is neither that owner nor the group's creator. */
  predicate Expels(g: Group, r: Request, u: UserId) {
    r.Kick? && r.target == u && u != "" && u in g.members && IsActiveOwner(g, r.user) && r.user != u && u != g.creator
  }

  /** A member ceases to be one exactly when it leaves like that or is so removed. */
  lemma GoesIff(g: Group, e: Event, u: UserId)
    requires u in g.members
    ensures u !in Handle(g, e).g.members <==> Departs(g, e.request, u) || Expels(g, e.request, u)
  {
    match e.request
    case Leave(_, _) => LeaveServed(g, e, u);
    case Kick(_, _) =>
    case Welcome(_, _, _, _) => hide NextLogSeq;
    case Decide(_, _) => hide NewestPending, HasOwner;
    case _ =>
      hide Act, Guard;
      MemberFootprint(g, e);
  }

  lemma LeaveServed(g: Group, e: Event, u: UserId)
    requires e.request.Leave? && u in g.members
    ensures u !in Handle(g, e).g.members <==> Departs(g, e.request, u)
  {
    assert g.members.Keys - {e.request.user} == {} <==> g.members.Keys <= {e.request.user};
  }

  /** The newest designee, still a member, accepts. */
  ghost predicate TakesOver(g: Group, r: Request) {
    && r.Decide? && r.accept && r.user != "" && r.user in g.members
    && NewestPending(g.transfers).At? && g.transfers[NewestPending(g.transfers).index].designee == r.user
  }

  /** Somebody's role changes exactly when such a takeover makes u owner, or takes the role from u, the one
      who handed it over. */
  lemma RoleChangesIff(g: Group, e: Event, u: UserId)
    requires u in g.members && u in Handle(g, e).g.members
    ensures Handle(g, e).g.members[u].role != g.members[u].role <==>
            TakesOver(g, e.request) &&
            var from := g.transfers[NewestPending(g.transfers).index].prevOwner;
            if u == e.request.user then g.members[u].role != Owner else u == from && g.members[u].role == Owner
    ensures Handle(g, e).g.members[u].role != g.members[u].role ==>
              Handle(g, e).g.members[u].role == if u == e.request.user then Owner else Member
  {
    hide NewestPending, HasOwner;
    match e.request
    case Decide(_, _) =>
    case Leave(_, _) =>
    case Kick(_, _) =>
    case Welcome(_, _, _, _) => hide NextLogSeq;
    case _ =>
      hide Act, Guard;
      MemberFootprint(g, e);
  }

  // ---------- messages and cursors ----------

  /** A member sends in the current epoch, which is not before the one it joined at, a message with an id
      that is not queued. */
  predicate Posts(g: Group, r: Request) {
    && r.Send? && IsActiveMember(g, r.user) && r.msgId != "" && r.body != ""
    && g.members[r.user].joinedEpoch <= r.epoch == g.epoch
    && forall k | k in g.queue :: g.queue[k].msgId != r.msgId
  }

  /** after is before with one row more, above all others. */
  predicate OnTop(before: map<nat, MessageRow>, after: map<nat, MessageRow>, n: nat, row: MessageRow) {
    n >= 1 && after == before[n := row] && forall k | k in before :: k < n
  }

  /** A message is queued exactly when a member so posts it: one row above all others, as it was sent. */
  lemma QueueGrowsIff(g: Group, e: Event)
    ensures (exists k :: k in Handle(g, e).g.queue && k !in g.queue) <==> Posts(g, e.request)
    ensures Posts(g, e.request) ==>
              exists n: nat :: OnTop(g.queue, Handle(g, e).g.queue, n,
                                     MessageRow(e.request.epoch, e.request.user, e.request.msgId, e.request.body))
  {
    match e.request
    case Send(user, epoch, msgId, body) =>
      SendServed(g, e);
      hide Act, Guard;
      if Posts(g, e.request) {
        assert OnTop(g.queue, Handle(g, e).g.queue, NextSeq(g.queue), MessageRow(epoch, user, msgId, body));
      }
    case Cleanup => PassServed(g, e);
    case _ =>
      hide Act, Guard;
      QueueFootprint(g, e);
  }

  lemma SendServed(g: Group, e: Event)
    requires e.request.Send?
    ensures var n, r := NextSeq(g.queue), e.request;
            && n >= 1 && n !in g.queue && (forall k | k in g.queue :: k < n)
            && Handle(g, e).g.queue ==
               if Posts(g, r) then g.queue[n := MessageRow(r.epoch, r.user, r.msgId, r.body)] else g.queue
  {
    if g.queue.Keys != {} {
      assert forall k | k in g.queue :: k in g.queue.Keys;
    }
  }

  lemma PassServed(g: Group, e: Event)
    requires e.request.Cleanup?
    ensures forall k | k in Handle(g, e).g.queue :: k in g.queue
    ensures g.state != Active ==> Handle(g, e).g == g
  {
    hide Kept, NewFloor, Unacked;
  }

  /** Rows go and the floor moves only in the clean-up of an active group. */
  lemma QueueShrinksOnlyByCleanup(g: Group, e: Event)
    ensures (exists k :: k in g.queue && k !in Handle(g, e).g.queue) || Handle(g, e).g.minSeq != g.minSeq ==>
              e.request.Cleanup? && g.state == Active
  {
    match e.request
    case Send(_, _, _, _) =>
      SendServed(g, e);
      hide Act, Guard;
      QueueFootprint(g, e);
    case Cleanup => PassServed(g, e);
    case _ =>
      hide Act, Guard;
      QueueFootprint(g, e);
  }

  /** A cursor rises exactly when its member acknowledges a queued seq above it, and to that seq. */
  lemma CursorRisesIff(g: Group, e: Event, u: UserId)
    requires CursorOf(g, u) >= 0
    ensures CursorOf(Handle(g, e).g, u) > CursorOf(g, u) <==>
            && e.request.Ack? && e.request.user == u && IsActiveMember(g, u)
            && CursorOf(g, u) < e.request.lastSeq && exists k :: k in g.queue && k >= e.request.lastSeq
    ensures CursorOf(Handle(g, e).g, u) > CursorOf(g, u) ==> CursorOf(Handle(g, e).g, u) == e.request.lastSeq
  {
    match e.request
    case Ack(_, lastSeq) => TopIsQueued(g.queue, lastSeq);
      hide TopSeq;
    case Leave(_, _) =>
    case Kick(_, _) =>
    case _ =>
      hide Act, Guard;
      MemberFootprint(g, e);
  }

  lemma TopIsQueued(queue: map<nat, MessageRow>, n: int)
    ensures n > 0 ==> (n <= TopSeq(queue) <==> exists k :: k in queue && k >= n)
  {
    if queue.Keys != {} {
      assert MaxOf(queue.Keys) in queue;
      assert forall k | k in queue :: k in queue.Keys;
    }
  }

  // ---------- the life of the group ----------

  /** A transaction that ends the group: dissolving it, the owner's leave as the last member, or the newest
      designee declining while nobody owns it. */
  ghost predicate Ends(g: Group, r: Request) {
    match r
    case Dissolve(_) => true
    case Leave(user, _) => IsOwner(g, user) && g.members.Keys == {user}
    case Decide(user, accept) =>
      && !accept && NewestPending(g.transfers).At?
      && g.transfers[NewestPending(g.transfers).index].designee == user
      && forall u | u in g.members :: g.members[u].role != Owner
    case _ => false
  }

  /** A transaction, however old its check, ends an active group exactly when it is one of these, and
      none brings a group back. */
  lemma EndStep(g: Group, e: Event)
    ensures Act(g, e).g.state == if Ends(g, e.request) then Dissolved else g.state
  {
    hide NewestPending;
    match e.request
    case Leave(user, _) =>
      assert user in g.members ==> (g.members.Keys - {user} == {} <==> g.members.Keys == {user});
    case Decide(_, _) =>
    case Dissolve(_) =>
    case _ =>
      hide Act;
      OwnershipFootprint(g, e);
  }

  /** Served, it has to come from the owner, or from that designee. */
  lemma ServedEndIff(g: Group, e: Event)
    requires g.state == Active
    ensures Handle(g, e).g.state == Dissolved <==>
            && Ends(g, e.request) && e.request.user != ""
            && (e.request.Dissolve? ==> IsActiveOwner(g, e.request.user))
  {
    EndStep(g, e);
    hide Act, NewestPending;
  }

  ghost predicate EndedAt(g: Group, ts: seq<Event>, k: nat) {
    k < |ts| && Settled(g, ts[..k]).state == Active && Ends(Settled(g, ts[..k]), ts[k].request)
  }

  ghost predicate Ended(g: Group, ts: seq<Event>) {
    exists k: nat :: EndedAt(g, ts, k)
  }

  lemma EndedMore(g: Group, front: seq<Event>, t: Event)
    ensures Ended(g, front + [t]) <==>
            Ended(g, front) || (Settled(g, front).state == Active && Ends(Settled(g, front), t.request))
  {
    hide Settled, Ends;
    var ts := front + [t];
    assert ts[..|front|] == front;
    forall k: nat | k < |front| ensures EndedAt(g, ts, k) <==> EndedAt(g, front, k) {
      assert ts[..k] == front[..k];
    }
    if Ended(g, front) {
      var k: nat :| EndedAt(g, front, k);
      assert EndedAt(g, ts, k);
    }
    if Settled(g, front).state == Active && Ends(Settled(g, front), t.request) {
      assert EndedAt(g, ts, |front|);
    }
    if Ended(g, ts) {
      var k: nat :| EndedAt(g, ts, k);
      assert k == |front| || EndedAt(g, front, k);
    }
  }

  /** Over any transactions in any order a group is dissolved exactly when one of them ended it. */
  lemma {:induction false} DissolvedIffEnded(creator: UserId, ts: seq<Event>)
    ensures Settled(NewGroup(creator), ts).state == Dissolved <==> Ended(NewGroup(creator), ts)
    decreases |ts|
  {
    hide Act, Ends, Ended;
    var g0 := NewGroup(creator);
    if ts == [] {
      NothingEnded(g0);
    } else {
      var front, t := ts[..|ts| - 1], ts[|ts| - 1];
      assert ts == front + [t];
      DissolvedIffEnded(creator, front);
      EndStep(Settled(g0, front), t);
      EndedMore(g0, front, t);
    }
  }

  lemma NothingEnded(g: Group)
    ensures !Ended(g, [])
  {}

  // ---------- hand-overs and removals ----------

  /** The owner offers the group to another member while nothing is pending. */
  predicate Offers(g: Group, r: Request) {
    && r.StartTransfer? && IsActiveOwner(g, r.user) && r.designee != "" && r.designee != r.user
    && r.designee in g.members && forall i | 0 <= i < |g.transfers| :: g.transfers[i].state != Pending
  }

  /** The owner leaves other members behind, and the group to one of them. */
  predicate Bequeaths(g: Group, r: Request) {
    && r.Leave? && IsActiveOwner(g, r.user) && r.successor != "" && r.successor != r.user && r.successor in g.members
  }

  /** A hand-over is recorded exactly when the owner so offers or bequeaths the group: one pending row from
      the owner to the one named. */
  lemma HandOverRecordedIff(g: Group, e: Event)
    ensures |Handle(g, e).g.transfers| != |g.transfers| <==> Offers(g, e.request) || Bequeaths(g, e.request)
    ensures |Handle(g, e).g.transfers| != |g.transfers| ==>
              var to := if e.request.Leave? then e.request.successor else e.request.designee;
              Handle(g, e).g.transfers == g.transfers + [TransferRow(e.request.user, to, Pending, e.now)]
  {
    hide NewestPending, HasOwner;
    match e.request
    case StartTransfer(_, _) => assert Offers(g, e.request) ==> !HasPending(g.transfers);
    case Leave(user, successor) =>
      assert Bequeaths(g, e.request) ==> successor in g.members.Keys - {user};
    case Decide(_, _) =>
    case _ =>
      hide Act, Guard;
      OwnershipFootprint(g, e);
  }

  /** The list of pending removals loses somebody exactly when the owner clears it. */
  lemma RemovalsClearedIff(g: Group, e: Event)
    ensures (exists u :: u in g.removals && u !in Handle(g, e).g.removals) <==>
            e.request.ClearPendingRemovals? && IsActiveOwner(g, e.request.user) && g.removals != {}
  {
    if e.request.ClearPendingRemovals? {
      assert g.removals != {} ==> exists u :: u in g.removals;
    } else {
      hide Guard;
      RemovalsStay(g, e);
    }
  }

  lemma RemovalsStay(g: Group, e: Event)
    requires !e.request.ClearPendingRemovals?
    ensures g.removals <= Act(g, e).g.removals
  {
    hide AppendCommit, AppendWelcome, AppendMessage, UpsertCursor, RemoveMember, CreateTransfer, DecideTransfer,
         ReclaimMessages;
  }

  // ---------- what an answer tells ----------

  /** Requests that only a member may make. */
  predicate ForMembers(r: Request) {
    r.Commit? || r.Welcome? || r.Send? || r.Ack? || ForOwners(r)
  }

  predicate ForOwners(r: Request) {
    r.Kick? || r.StartTransfer? || r.Dissolve? || r.ClearPendingRemovals?
  }

  predicate IsPlainMember(g: Group, u: UserId) {
    u in g.members && g.members[u].role == Member
  }

  predicate LeavesOthers(g: Group, r: Request) {
    r.Leave? && IsOwner(g, r.user) && g.members.Keys != {r.user}
  }

  /** The reasons for which a request is refused, error by error. */
  ghost predicate Explains(g: Group, r: Request, error: Error) {
    match error
    case MissingPayload => Incomplete(r)
    case InvalidTarget => r.Kick? && r.target == r.user
    case GroupDissolved => !r.Decide? && g.state == Dissolved
    case NotGroupMember => ForMembers(r) && r.user !in g.members
    case Forbidden => (r.Commit? || r.Welcome?) && IsPlainMember(g, r.user)
    case NotOwner =>
      (r.Kick? && r.target == g.creator) || (ForOwners(r) && r.user in g.members && g.members[r.user].role != Owner)
    case GroupFull => r.Welcome? && r.target !in g.members && |g.members| >= 1000
    case DuplicateCommitEpoch =>
      r.Commit? && exists i | 0 <= i < |g.log| :: g.log[i].epoch == r.epoch && g.log[i].kind != "welcome"
    case EpochParentMismatch => r.Commit? && r.parent != g.epoch
    case EpochNotMonotonic => r.Commit? && r.epoch <= g.epoch
    case EpochBeforeJoin => r.Send? && r.user in g.members && r.epoch < g.members[r.user].joinedEpoch
    case EpochMismatch => r.Send? && r.epoch != g.epoch
    case DuplicateGroupMsg => r.Send? && exists k :: k in g.queue && g.queue[k].msgId == r.msgId
    case InvalidLastSeq => r.Ack? && r.lastSeq < 0
    case SeqOutOfRange => r.Ack? && r.lastSeq > 0 && forall k | k in g.queue :: k < r.lastSeq
    case SuccessorRequired => LeavesOthers(g, r) && r.successor == ""
    case TransferPending =>
      r.StartTransfer? && r.designee != r.user && exists i | 0 <= i < |g.transfers| :: g.transfers[i].state == Pending
    case TransferNotFound => r.Decide? && forall i | 0 <= i < |g.transfers| :: g.transfers[i].state != Pending
    case NotDesignee =>
      r.Decide? && NewestPending(g.transfers).At? && g.transfers[NewestPending(g.transfers).index].designee != r.user
    case InvalidSuccessor =>
      || (LeavesOthers(g, r) && r.successor != "" && (r.successor == r.user || r.successor !in g.members))
      || (r.StartTransfer? && (r.designee == r.user || r.designee !in g.members))
      || (r.Decide? && r.accept && r.user !in g.members)
    case GroupOwnerUpdating =>
      && r.AskToJoin? && (exists i | 0 <= i < |g.transfers| :: g.transfers[i].state == Pending)
      && forall u | u in g.members :: g.members[u].role != Owner
    case AlreadyMember => r.AskToJoin? && r.user in g.members
    case _ => false
  }

  /** Which of several reasons is reported: the one of least rank. */
  function Rank(error: Error): nat {
    match error
    case MissingPayload => 0
    case InvalidTarget => 1
    case GroupDissolved => 2
    case NotGroupMember => 3
    case Forbidden | NotOwner => 4
    case EpochMismatch | SeqOutOfRange | EpochParentMismatch | NotDesignee | AlreadyMember => 6
    case DuplicateGroupMsg | EpochNotMonotonic | InvalidSuccessor => 7
    case _ => 5
  }

  /** A refusal names a reason that is there and changes nothing; and any reason is enough for one, which
      names no later reason. */
  ghost predicate RefusedFirst(g: Group, e: Event, o: Outcome) {
    RefusedForAReason(g, e, o) && forall error | Explains(g, e.request, error) :: RefusedBy(o, error)
  }

  ghost predicate RefusedForAReason(g: Group, e: Event, o: Outcome) {
    o.reply.Refused? ==> o.g == g && Explains(g, e.request, o.reply.error)
  }

  predicate RefusedBy(o: Outcome, error: Error) {
    o.reply.Refused? && Rank(o.reply.error) <= Rank(error)
  }

  /** A served request is refused exactly when one of these reasons is there, the first of them is the one
      reported, and nothing changes. */
  lemma RefusedForFirstReason(g: Group, e: Event)
    ensures RefusedFirst(g, e, Handle(g, e))
  {
    hide Handle;
    match e.request
    case Commit(_, _, _, _, _) => CommitRefusals(g, e);
    case Welcome(_, _, _, _) => WelcomeRefusals(g, e);
    case Send(_, _, _, _) => SendRefusals(g, e);
    case Ack(_, _) => AckRefusals(g, e);
    case Leave(_, _) => LeaveRefusals(g, e);
    case StartTransfer(_, _) => OfferRefusals(g, e);
    case Decide(_, _) => DecisionRefusals(g, e);
    case Kick(_, _) => KickRefusals(g, e);
    case AskToJoin(_) => JoinRefusals(g, e);
    case Cleanup => PassRefusals(g, e);
    case _ => OwnerRefusals(g, e);
  }

  lemma CommitRefusals(g: Group, e: Event)
    requires e.request.Commit?
    ensures RefusedFirst(g, e, Handle(g, e))
  {
    hide AppendWelcome, AppendMessage, UpsertCursor, LeaveGroup, RemoveMember, CreateTransfer, DecideTransfer,
         ReclaimMessages, TopSeq, NextLogSeq;
  }

  lemma WelcomeRefusals(g: Group, e: Event)
    requires e.request.Welcome?
    ensures RefusedFirst(g, e, Handle(g, e))
  {
    hide AppendCommit, AppendMessage, UpsertCursor, LeaveGroup, RemoveMember, CreateTransfer, DecideTransfer,
         ReclaimMessages, TopSeq, NextLogSeq;
  }

  lemma SendRefusals(g: Group, e: Event)
    requires e.request.Send?
    ensures RefusedFirst(g, e, Handle(g, e))
  {
    hide AppendCommit, AppendWelcome, UpsertCursor, LeaveGroup, RemoveMember, CreateTransfer, DecideTransfer,
         ReclaimMessages, TopSeq, NextSeq;
  }

  lemma AckRefusals(g: Group, e: Event)
    requires e.request.Ack?
    ensures RefusedFirst(g, e, Handle(g, e))
  {
    hide AppendCommit, AppendWelcome, AppendMessage, LeaveGroup, RemoveMember, CreateTransfer, DecideTransfer,
         ReclaimMessages;
    TopIsQueued(g.queue, e.request.lastSeq);
    NoTopWithoutRows(g.queue);
    hide TopSeq;
  }

  lemma NoTopWithoutRows(queue: map<nat, MessageRow>)
    ensures TopSeq(queue) >= 0
  {}

  lemma LeaveRefusedForAReason(g: Group, e: Event)
    requires e.request.Leave?
    ensures RefusedForAReason(g, e, Handle(g, e))
  {
    hide AppendCommit, AppendWelcome, AppendMessage, UpsertCursor, RemoveMember, CreateTransfer, DecideTransfer,
         ReclaimMessages, TopSeq;
    if e.request.user in g.members {
      assert g.members.Keys - {e.request.user} == {} <==> g.members.Keys == {e.request.user};
    }
  }

  lemma LeaveRefusedBy(g: Group, e: Event, error: Error)
    requires e.request.Leave? && Explains(g, e.request, error)
    ensures RefusedBy(Handle(g, e), error)
  {
    hide AppendCommit, AppendWelcome, AppendMessage, UpsertCursor, RemoveMember, CreateTransfer, DecideTransfer,
         ReclaimMessages, TopSeq;
    if e.request.user in g.members {
      assert g.members.Keys - {e.request.user} == {} <==> g.members.Keys == {e.request.user};
    }
  }

  lemma LeaveRefusals(g: Group, e: Event)
    requires e.request.Leave?
    ensures RefusedFirst(g, e, Handle(g, e))
  {
    hide Handle, Explains, RefusedForAReason, RefusedBy;
    LeaveRefusedForAReason(g, e);
    forall error | Explains(g, e.request, error) ensures RefusedBy(Handle(g, e), error) {
      LeaveRefusedBy(g, e, error);
    }
  }

  lemma OfferRefusals(g: Group, e: Event)
    requires e.request.StartTransfer?
    ensures RefusedFirst(g, e, Handle(g, e))
  {
    hide AppendCommit, AppendWelcome, AppendMessage, UpsertCursor, LeaveGroup, RemoveMember, DecideTransfer,
         ReclaimMessages, TopSeq;
  }

  lemma DecisionRefusedForAReason(g: Group, e: Event)
    requires e.request.Decide?
    ensures RefusedForAReason(g, e, Handle(g, e))
  {
    hide AppendCommit, AppendWelcome, AppendMessage, UpsertCursor, LeaveGroup, RemoveMember, CreateTransfer,
         ReclaimMessages, TopSeq, NewestPending, HasOwner;
  }

  lemma DecisionRefusedBy(g: Group, e: Event, error: Error)
    requires e.request.Decide? && Explains(g, e.request, error)
    ensures RefusedBy(Handle(g, e), error)
  {
    hide AppendCommit, AppendWelcome, AppendMessage, UpsertCursor, LeaveGroup, RemoveMember, CreateTransfer,
         ReclaimMessages, TopSeq, NewestPending, HasOwner;
  }

  lemma DecisionRefusals(g: Group, e: Event)
    requires e.request.Decide?
    ensures RefusedFirst(g, e, Handle(g, e))
  {
    hide Handle, Explains, RefusedForAReason, RefusedBy;
    DecisionRefusedForAReason(g, e);
    forall error | Explains(g, e.request, error) ensures RefusedBy(Handle(g, e), error) {
      DecisionRefusedBy(g, e, error);
    }
  }

  lemma KickRefusedForAReason(g: Group, e: Event)
    requires e.request.Kick?
    ensures RefusedForAReason(g, e, Handle(g, e))
  {
    hide AppendCommit, AppendWelcome, AppendMessage, UpsertCursor, LeaveGroup, CreateTransfer, DecideTransfer,
         ReclaimMessages, TopSeq;
  }

  lemma KickRefusedBy(g: Group, e: Event, error: Error)
    requires e.request.Kick? && Explains(g, e.request, error)
    ensures RefusedBy(Handle(g, e), error)
  {
    hide AppendCommit, AppendWelcome, AppendMessage, UpsertCursor, LeaveGroup, CreateTransfer, DecideTransfer,
         ReclaimMessages, TopSeq;
  }

  lemma KickRefusals(g: Group, e: Event)
    requires e.request.Kick?
    ensures RefusedFirst(g, e, Handle(g, e))
  {
    hide Handle, Explains, RefusedForAReason, RefusedBy;
    KickRefusedForAReason(g, e);
    forall error | Explains(g, e.request, error) ensures RefusedBy(Handle(g, e), error) {
      KickRefusedBy(g, e, error);
    }
  }

  lemma OwnerRefusals(g: Group, e: Event)
    requires e.request.Dissolve? || e.request.ClearPendingRemovals?
    ensures RefusedFirst(g, e, Handle(g, e))
  {
    hide AppendCommit, AppendWelcome, AppendMessage, UpsertCursor, LeaveGroup, RemoveMember, CreateTransfer,
         DecideTransfer, ReclaimMessages, TopSeq;
  }

  lemma JoinRefusals(g: Group, e: Event)
    requires e.request.AskToJoin?
    ensures RefusedFirst(g, e, Handle(g, e))
  {
    hide AppendCommit, AppendWelcome, AppendMessage, UpsertCursor, LeaveGroup, RemoveMember, CreateTransfer,
         DecideTransfer, ReclaimMessages, TopSeq;
  }

  lemma PassRefusals(g: Group, e: Event)
    requires e.request.Cleanup?
    ensures RefusedFirst(g, e, Handle(g, e))
  {
    hide AppendCommit, AppendWelcome, AppendMessage, UpsertCursor, LeaveGroup, RemoveMember, CreateTransfer,
         DecideTransfer, TopSeq, Kept, NewFloor, Unacked;
  }

  /** Whoever is told of a new row can find it: a seq is answered exactly when a commit, a welcome or a
      message was recorded, and it is that row's. */
  lemma SeqAnsweredIff(g: Group, e: Event)
    ensures Handle(g, e).reply.AtSeq? <==> Advances(g, e.request) || Invites(g, e.request) || Posts(g, e.request)
    ensures Handle(g, e).reply.AtSeq? ==>
              var n, g' := Handle(g, e).reply.number, Handle(g, e).g;
              if e.request.Send? then n in g'.queue && n !in g.queue
              else |g'.log| == |g.log| + 1 && g'.log[|g.log|].number == n
  {
    hide NextLogSeq;
    match e.request
    case Commit(_, _, _, _, _) =>
    case Welcome(_, _, _, _) =>
    case Send(_, _, _, _) => SendServed(g, e);
    case _ => hide NewestPending, Kept, NewFloor, Unacked, HasOwner;
  }

  /** The cursor answered to an acknowledgement is the member's own as it then stands. */
  lemma CursorAnswered(g: Group, e: Event)
    requires e.request.Ack? && !Handle(g, e).reply.Refused?
    ensures Handle(g, e).reply == Cursor(CursorOf(Handle(g, e).g, e.request.user))
    ensures CursorOf(Handle(g, e).g, e.request.user) >= e.request.lastSeq
  {
    hide TopSeq;
  }
}
