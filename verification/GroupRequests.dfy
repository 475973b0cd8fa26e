/** The group endpoints: each one reads some rows (its guard), then runs one store transaction
    (its act). A request here has passed the signature, nonce, size and hash checks, and its text
    fields are trimmed. */
module GroupRequests {
  import opened Ordered
  import opened GroupModel

  datatype Request =
    | Commit(user: UserId, parent: int, epoch: int, kind: string, data: string)
    | Welcome(user: UserId, target: UserId, epoch: int, data: string)
    | Send(user: UserId, epoch: int, msgId: string, body: string)
    | Ack(user: UserId, lastSeq: int)
    | Leave(user: UserId, successor: UserId)
    | Kick(user: UserId, target: UserId)
    | StartTransfer(user: UserId, designee: UserId)
    | Decide(user: UserId, accept: bool)
    | Dissolve(user: UserId)
    | ClearPendingRemovals(user: UserId)
    | AskToJoin(user: UserId)
    | Cleanup

  datatype Event = Event(request: Request, now: int)

  datatype Verdict = Proceed | Stop(reply: Reply)

  function ActiveGroup(g: Group): Verdict {
    if g.state == Active then Proceed else Stop(Refused(GroupDissolved))
  }

  function ActiveMember(g: Group, user: UserId): Verdict {
    if ActiveGroup(g).Stop? then ActiveGroup(g)
    else if user !in g.members then Stop(Refused(NotGroupMember))
    else Proceed
  }

  function ActiveRole(g: Group, user: UserId, roles: set<Role>, error: Error): Verdict {
    if ActiveMember(g, user).Stop? then ActiveMember(g, user)
    else if g.members[user].role !in roles then Stop(Refused(error))
    else Proceed
  }

  /** A required field is empty. */
  predicate Incomplete(r: Request) {
    match r
    case Commit(user, _, _, _, data) => user == "" || data == ""
    case Welcome(user, target, _, data) => user == "" || target == "" || data == ""
    case Send(user, _, msgId, body) => user == "" || msgId == "" || body == ""
    case Kick(user, target) => user == "" || target == ""
    case StartTransfer(user, designee) => user == "" || designee == ""
    case Cleanup => false
    case _ => r.user == ""
  }

  /** What the endpoint decides from the rows it reads before its transaction. */
  ghost function Guard(g: Group, r: Request): Verdict {
    if Incomplete(r) then Stop(Refused(MissingPayload)) else
    match r
    case Commit(user, _, _, _, _) => ActiveRole(g, user, {Owner, Admin}, Forbidden)
    case Welcome(user, _, _, _) => ActiveRole(g, user, {Owner, Admin}, Forbidden)
    case Send(user, epoch, _, _) =>
      if ActiveMember(g, user).Stop? then ActiveMember(g, user)
      else if g.members[user].joinedEpoch > epoch then Stop(Refused(EpochBeforeJoin))
      else if epoch != g.epoch then Stop(Refused(EpochMismatch))
      else Proceed
    case Ack(user, lastSeq) =>
      if ActiveMember(g, user).Stop? then ActiveMember(g, user)
      else if lastSeq < 0 then Stop(Refused(InvalidLastSeq))
      else if lastSeq > TopSeq(g.queue) then Stop(Refused(SeqOutOfRange))
      else Proceed
    case Leave(_, _) => ActiveGroup(g)
    case Kick(user, target) =>
      if user == target then Stop(Refused(InvalidTarget))
      else if ActiveRole(g, user, {Owner}, NotOwner).Stop? then ActiveRole(g, user, {Owner}, NotOwner)
      else if target == g.creator then Stop(Refused(NotOwner))
      else if target !in g.members then Stop(Done)
      else Proceed
    case StartTransfer(user, _) => ActiveRole(g, user, {Owner}, NotOwner)
    case Decide(_, _) => Proceed
    case Dissolve(user) => ActiveRole(g, user, {Owner}, NotOwner)
    case ClearPendingRemovals(user) => ActiveRole(g, user, {Owner}, NotOwner)
    case AskToJoin(user) =>
      if ActiveGroup(g).Stop? then ActiveGroup(g)
      else if HasPending(g.transfers) && !HasOwner(g) then Stop(Refused(GroupOwnerUpdating))
      else if user in g.members then Stop(Refused(AlreadyMember))
      else Proceed
    case Cleanup => ActiveGroup(g)
  }

  /** The endpoint's store transaction, whatever the group looks like by then. */
  ghost function Act(g: Group, e: Event): Outcome {
    match e.request
    case Commit(user, parent, epoch, kind, data) => AppendCommit(g, parent, epoch, kind, user, data)
    case Welcome(user, target, epoch, data) => AppendWelcome(g, user, target, epoch, data)
    case Send(user, epoch, msgId, body) => AppendMessage(g, MessageRow(epoch, user, msgId, body))
    case Ack(user, lastSeq) => UpsertCursor(g, user, lastSeq)
    case Leave(user, successor) => LeaveGroup(g, user, successor, e.now)
    case Kick(_, target) => RemoveMember(g, target)
    case StartTransfer(user, designee) => CreateTransfer(g, user, designee, e.now)
    case Decide(user, accept) => DecideTransfer(g, user, accept)
    case Dissolve(_) => DissolveGroup(g)
    case ClearPendingRemovals(_) => ClearRemovals(g)
    case AskToJoin(_) => Outcome(g, Done)
    case Cleanup => ReclaimMessages(g)
  }

  /** Guard and transaction with nothing in between. */
  ghost function Handle(g: Group, e: Event): Outcome {
    match Guard(g, e.request)
    case Stop(reply) => Outcome(g, reply)
    case Proceed => Act(g, e)
  }

  // ---------- which tables a transaction can write ----------

  predicate WritesMembers(r: Request) { r.Welcome? || r.Leave? || r.Kick? || r.Decide? }

  predicate WritesCursors(r: Request) { r.Ack? || r.Leave? || r.Kick? }

  predicate WritesTransfers(r: Request) { r.Leave? || r.StartTransfer? || r.Decide? }

  predicate WritesState(r: Request) { r.Leave? || r.Decide? || r.Dissolve? }

  lemma MemberFootprint(g: Group, e: Event)
    ensures !WritesMembers(e.request) ==> Act(g, e).g.members == g.members
    ensures !WritesCursors(e.request) ==> Act(g, e).g.cursors == g.cursors
    ensures Act(g, e).g.creator == g.creator
  {
    hide AppendCommit, AppendWelcome, AppendMessage, UpsertCursor, LeaveGroup, RemoveMember, CreateTransfer,
         DecideTransfer, DissolveGroup, ClearRemovals, ReclaimMessages;
  }

  lemma OwnershipFootprint(g: Group, e: Event)
    ensures !WritesTransfers(e.request) ==> Act(g, e).g.transfers == g.transfers
    ensures !WritesState(e.request) ==> Act(g, e).g.state == g.state
  {
    hide AppendCommit, AppendWelcome, AppendMessage, UpsertCursor, LeaveGroup, RemoveMember, CreateTransfer,
         DecideTransfer, DissolveGroup, ClearRemovals, ReclaimMessages;
  }

  lemma QueueFootprint(g: Group, e: Event)
    requires !e.request.Cleanup?
    ensures !e.request.Send? ==> Act(g, e).g.queue == g.queue
    ensures Act(g, e).g.minSeq == g.minSeq
  {
    hide AppendCommit, AppendWelcome, AppendMessage, UpsertCursor, LeaveGroup, RemoveMember, CreateTransfer,
         DecideTransfer, DissolveGroup, ClearRemovals, ReclaimMessages;
  }

  lemma LogFootprint(g: Group, e: Event)
    ensures !e.request.Commit? ==> Act(g, e).g.epoch == g.epoch
    ensures !e.request.Commit? && !e.request.Welcome? ==> Act(g, e).g.log == g.log
  {
    hide AppendCommit, AppendWelcome, AppendMessage, UpsertCursor, LeaveGroup, RemoveMember, CreateTransfer,
         DecideTransfer, DissolveGroup, ClearRemovals, ReclaimMessages;
  }
}
