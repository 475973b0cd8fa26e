/** The HTTP endpoints of a group over the store: loads, checks and one transaction, each endpoint
    proved to answer and to change the tables as the atomic handler of GroupRequests does.

    Signatures, nonces, sizes and blob hashes have been checked, and text fields are trimmed. */
module GroupApi {
  import opened Ordered
  import opened GroupModel
  import opened GroupRequests
  import opened GroupStore
  import opened CommitLog
  import opened Paging

  datatype Loaded = Loaded(g: Group) | Failed(error: Error)

  /** The tables after serving e for group gid, when nothing else runs meanwhile. */
  ghost function After(groups: map<GroupId, Group>, gid: GroupId, e: Event): map<GroupId, Group> {
    if gid in groups then groups[gid := Handle(groups[gid], e).g] else groups
  }

  ghost function Answer(groups: map<GroupId, Group>, gid: GroupId, e: Event): Reply {
    if gid in groups then Handle(groups[gid], e).reply
    else if Incomplete(e.request) then Refused(MissingPayload)
    else if e.request.Kick? && e.request.user == e.request.target then Refused(InvalidTarget)
    else if e.request.Decide? then Refused(TransferNotFound)
    else Refused(GroupNotFound)
  }

  /** Who may read a group: its members, while it is active. */
  function MayRead(groups: map<GroupId, Group>, gid: GroupId, user: UserId): Verdict {
    if user == "" then Stop(Refused(MissingPayload))
    else if gid !in groups then Stop(Refused(GroupNotFound))
    else ActiveMember(groups[gid], user)
  }

  /** A missing group answers as a dissolved one without hand-overs, but for the name of that error. */
  lemma MissingAnswersLikeDissolved(groups: map<GroupId, Group>, gid: GroupId, g: Group, e: Event)
    requires gid !in groups && g.state == Dissolved && g.transfers == [] && !e.request.Cleanup?
    ensures After(groups, gid, e) == groups
    ensures Handle(g, e).g == g && Handle(g, e).reply.Refused?
    ensures var error := Handle(g, e).reply.error;
            Answer(groups, gid, e) == Refused(if error == GroupDissolved then GroupNotFound else error)
  {}

  /** Messages and commits are read by members of active groups and nobody else; others are told the first
      reason, the group before the membership. */
  lemma OnlyMembersRead(groups: map<GroupId, Group>, gid: GroupId, user: UserId)
    ensures MayRead(groups, gid, user).Proceed? <==>
            user != "" && gid in groups && groups[gid].state == Active && user in groups[gid].members
    ensures user != "" && gid !in groups ==> MayRead(groups, gid, user) == Stop(Refused(GroupNotFound))
    ensures user != "" && gid in groups && groups[gid].state == Dissolved ==>
              MayRead(groups, gid, user) == Stop(Refused(GroupDissolved))
    ensures user != "" && gid in groups && groups[gid].state == Active && user !in groups[gid].members ==>
              MayRead(groups, gid, user) == Stop(Refused(NotGroupMember))
  {}

  /** A listing whose start is known and whose messages are still to be read. */
  datatype Listing = Listing(gid: GroupId, since: nat, limit: nat, minSeq: nat, myRole: Role) | Denied(error: Error)

  /** The page comes with the floor, which is to tell the member whether it was truncated. */
  datatype MessagePage = MessagePage(messages: seq<Queued>, minSeq: nat, myRole: Role) | NoPage(error: Error)

  datatype CommitList = Commits(rows: seq<LogRow>) | NoCommits(error: Error)

  class Api {
    const st: Store

    constructor (st: Store)
      ensures this.st == st
    {
      this.st := st;
    }

    function LoadActiveGroup(gid: GroupId): (l: Loaded)
      reads st
      ensures gid !in st.groups <==> l == Failed(GroupNotFound)
      ensures gid in st.groups && ActiveGroup(st.groups[gid]).Proceed? <==> l.Loaded?
      ensures l.Loaded? ==> l.g == st.groups[gid]
      ensures gid in st.groups && l.Failed? ==> ActiveGroup(st.groups[gid]) == Stop(Refused(l.error))
    {
      if gid !in st.groups then Failed(GroupNotFound)
      else if st.groups[gid].state != Active then Failed(GroupDissolved)
      else Loaded(st.groups[gid])
    }

    function LoadActiveGroupMember(gid: GroupId, user: UserId): (l: Loaded)
      reads st
      ensures gid !in st.groups <==> l == Failed(GroupNotFound)
      ensures gid in st.groups && ActiveMember(st.groups[gid], user).Proceed? <==> l.Loaded?
      ensures l.Loaded? ==> l.g == st.groups[gid] && user in l.g.members
      ensures gid in st.groups && l.Failed? ==> ActiveMember(st.groups[gid], user) == Stop(Refused(l.error))
    {
      var l := LoadActiveGroup(gid);
      if l.Loaded? && user !in l.g.members then Failed(NotGroupMember) else l
    }

    method CreateCommit(gid: GroupId, user: UserId, parent: int, epoch: int, kind: string, data: string, now: int)
      returns (reply: Reply)
      modifies st
      ensures var e := Event(Commit(user, parent, epoch, kind, data), now);
              st.groups == After(old(st.groups), gid, e) && reply == Answer(old(st.groups), gid, e)
    {
      if user == "" || data == "" {
        return Refused(MissingPayload);
      }
      var loaded := LoadActiveGroupMember(gid, user);
      if loaded.Failed? {
        return Refused(loaded.error);
      }
      if loaded.g.members[user].role !in {Owner, Admin} {
        return Refused(Forbidden);
      }
      reply := st.AppendGroupCommit(gid, parent, epoch, kind, user, data);
    }

    method CreateWelcome(gid: GroupId, user: UserId, target: UserId, epoch: int, data: string, now: int)
      returns (reply: Reply)
      modifies st
      ensures var e := Event(Welcome(user, target, epoch, data), now);
              st.groups == After(old(st.groups), gid, e) && reply == Answer(old(st.groups), gid, e)
    {
      if user == "" || target == "" || data == "" {
        return Refused(MissingPayload);
      }
      var loaded := LoadActiveGroupMember(gid, user);
      if loaded.Failed? {
        return Refused(loaded.error);
      }
      if loaded.g.members[user].role !in {Owner, Admin} {
        return Refused(Forbidden);
      }
      reply := st.AppendWelcome(gid, user, target, epoch, data);
    }

    method SendMessage(gid: GroupId, user: UserId, epoch: int, msgId: string, body: string, now: int)
      returns (reply: Reply)
      modifies st
      ensures var e := Event(Send(user, epoch, msgId, body), now);
              st.groups == After(old(st.groups), gid, e) && reply == Answer(old(st.groups), gid, e)
    {
      if user == "" || msgId == "" || body == "" {
        return Refused(MissingPayload);
      }
      var loaded := LoadActiveGroupMember(gid, user);
      if loaded.Failed? {
        return Refused(loaded.error);
      }
      if loaded.g.members[user].joinedEpoch > epoch {
        return Refused(EpochBeforeJoin);
      }
      if epoch != loaded.g.epoch {
        return Refused(EpochMismatch);
      }
      reply := st.AppendGroupMessage(gid, MessageRow(epoch, user, msgId, body));
    }

    /** The first half of a listing: the group's row, the caller's row, and from them where the page
        starts. Anything may happen before the second half. */
    method StartListing(gid: GroupId, user: UserId, sinceSeq: int, asked: int) returns (l: Listing)
      ensures l.Denied? <==> MayRead(st.groups, gid, user).Stop?
      ensures l.Denied? ==> MayRead(st.groups, gid, user) == Stop(Refused(l.error))
      ensures l.Listing? ==>
                var g := st.groups[gid];
                l == Listing(gid, From(g.minSeq, sinceSeq), PageLimit(asked), g.minSeq, g.members[user].role)
    {
      if user == "" {
        return Denied(MissingPayload);
      }
      var loaded := LoadActiveGroupMember(gid, user);
      if loaded.Failed? {
        return Denied(loaded.error);
      }
      var limit := asked;
      if limit <= 0 {
        limit := DEFAULT_PAGE;
      }
      if limit > MAX_PAGE {
        limit := MAX_PAGE;
      }
      var minSeq := loaded.g.minSeq;
      var since := sinceSeq;
      if since < minSeq {
        since := minSeq;
      }
      return Listing(gid, since, limit, minSeq, loaded.g.members[user].role);
    }

    /** The second half: the messages, from wherever the first half put the start. */
    method FinishListing(l: Listing) returns (page: MessagePage)
      requires l.Listing?
      ensures page.MessagePage? && page.minSeq == l.minSeq && page.myRole == l.myRole
      ensures l.gid !in st.groups ==> page.messages == []
      ensures l.gid in st.groups ==>
                && var queue := st.groups[l.gid].queue;
                && Numbers(page.messages) == Listed(queue.Keys, l.since, l.limit)
                && forall m | m in page.messages :: m.number in queue && m.row == queue[m.number]
    {
      var messages := st.ListGroupMessages(l.gid, l.since, l.limit);
      return MessagePage(messages, l.minSeq, l.myRole);
    }

    /** Both halves with nothing in between. */
    method ListMessages(gid: GroupId, user: UserId, sinceSeq: int, asked: int) returns (page: MessagePage)
      ensures page.NoPage? <==> MayRead(st.groups, gid, user).Stop?
      ensures page.NoPage? ==> MayRead(st.groups, gid, user) == Stop(Refused(page.error))
      ensures page.MessagePage? ==>
                && var g := st.groups[gid];
                && Numbers(page.messages) == Page(g, sinceSeq, asked)
                && (forall m | m in page.messages :: m.number in g.queue && m.row == g.queue[m.number])
                && page.minSeq == g.minSeq && page.myRole == g.members[user].role
    {
      var l := StartListing(gid, user, sinceSeq, asked);
      if l.Denied? {
        return NoPage(l.error);
      }
      page := FinishListing(l);
    }

    method ListCommits(gid: GroupId, user: UserId, sinceEpoch: int) returns (commits: CommitList)
      ensures commits.NoCommits? <==> MayRead(st.groups, gid, user).Stop?
      ensures commits.NoCommits? ==> MayRead(st.groups, gid, user) == Stop(Refused(commits.error))
      ensures commits.Commits? ==> IsListing(commits.rows, st.groups[gid].log, sinceEpoch)
    {
      if user == "" {
        return NoCommits(MissingPayload);
      }
      var loaded := LoadActiveGroupMember(gid, user);
      if loaded.Failed? {
        return NoCommits(loaded.error);
      }
      var rows := st.ListMLSLogSince(gid, sinceEpoch);
      return Commits(rows);
    }

    /** The first half of an acknowledgement: the checks, and the cursor recorded. */
    method RecordAck(gid: GroupId, user: UserId, lastSeq: int, now: int) returns (reply: Reply)
      modifies st
      ensures var e := Event(Ack(user, lastSeq), now);
              st.groups == After(old(st.groups), gid, e) && reply == Answer(old(st.groups), gid, e)
    {
      if user == "" {
        return Refused(MissingPayload);
      }
      var loaded := LoadActiveGroupMember(gid, user);
      if loaded.Failed? {
        return Refused(loaded.error);
      }
      if lastSeq < 0 {
        return Refused(InvalidLastSeq);
      }
      var maxSeq := SelectMaxSeq(loaded.g.queue);
      if lastSeq > maxSeq {
        return Refused(SeqOutOfRange);
      }
      reply := st.UpsertGroupCursor(gid, user, lastSeq);
    }

    /** The second half: the answer is the cursor as it stands when this runs. */
    method AnswerAck(gid: GroupId, user: UserId) returns (reply: Reply)
      ensures reply == Cursor(if gid in st.groups then CursorOf(st.groups[gid], user) else 0)
    {
      var current := st.GetGroupCursor(gid, user);
      return Cursor(current);
    }

    /** Both halves with nothing in between. */
    method AckMessages(gid: GroupId, user: UserId, lastSeq: int, now: int) returns (reply: Reply)
      modifies st
      ensures var e := Event(Ack(user, lastSeq), now);
              st.groups == After(old(st.groups), gid, e) && reply == Answer(old(st.groups), gid, e)
    {
      reply := RecordAck(gid, user, lastSeq, now);
      if reply.Cursor? {
        reply := AnswerAck(gid, user);
      }
    }

    method LeaveGroup(gid: GroupId, user: UserId, successor: UserId, now: int) returns (reply: Reply)
      modifies st
      ensures var e := Event(Leave(user, successor), now);
              st.groups == After(old(st.groups), gid, e) && reply == Answer(old(st.groups), gid, e)
    {
      if user == "" {
        return Refused(MissingPayload);
      }
      var loaded := LoadActiveGroup(gid);
      if loaded.Failed? {
        return Refused(loaded.error);
      }
      reply := st.LeaveGroup(gid, user, successor, now);
    }

    method KickMember(gid: GroupId, user: UserId, target: UserId, now: int) returns (reply: Reply)
      modifies st
      ensures var e := Event(Kick(user, target), now);
              st.groups == After(old(st.groups), gid, e) && reply == Answer(old(st.groups), gid, e)
    {
      if user == "" || target == "" {
        return Refused(MissingPayload);
      }
      if user == target {
        return Refused(InvalidTarget);
      }
      var actor := LoadActiveGroupMember(gid, user);
      if actor.Failed? {
        return Refused(actor.error);
      }
      if actor.g.members[user].role != Owner {
        return Refused(NotOwner);
      }
      if target == actor.g.creator {
        return Refused(NotOwner);
      }
      var victim := LoadActiveGroupMember(gid, target);
      if victim.Failed? {
        return Done;
      }
      reply := st.RemoveGroupMember(gid, target);
    }

    method StartOwnerTransfer(gid: GroupId, user: UserId, designee: UserId, now: int) returns (reply: Reply)
      modifies st
      ensures var e := Event(StartTransfer(user, designee), now);
              st.groups == After(old(st.groups), gid, e) && reply == Answer(old(st.groups), gid, e)
    {
      if user == "" || designee == "" {
        return Refused(MissingPayload);
      }
      var loaded := LoadActiveGroupMember(gid, user);
      if loaded.Failed? {
        return Refused(loaded.error);
      }
      if loaded.g.members[user].role != Owner {
        return Refused(NotOwner);
      }
      reply := st.CreateOwnerTransfer(gid, user, designee, now);
    }

    /** Goes straight to the transaction: neither the group's state nor membership is checked first. */
    method DecideOwnerTransfer(gid: GroupId, user: UserId, accept: bool, now: int) returns (reply: Reply)
      modifies st
      ensures var e := Event(Decide(user, accept), now);
              st.groups == After(old(st.groups), gid, e) && reply == Answer(old(st.groups), gid, e)
    {
      if user == "" {
        return Refused(MissingPayload);
      }
      reply := st.DecideOwnerTransfer(gid, user, accept);
    }

    method DissolveGroup(gid: GroupId, user: UserId, now: int) returns (reply: Reply)
      modifies st
      ensures var e := Event(Dissolve(user), now);
              st.groups == After(old(st.groups), gid, e) && reply == Answer(old(st.groups), gid, e)
    {
      if user == "" {
        return Refused(MissingPayload);
      }
      var loaded := LoadActiveGroupMember(gid, user);
      if loaded.Failed? {
        return Refused(loaded.error);
      }
      if loaded.g.members[user].role != Owner {
        return Refused(NotOwner);
      }
      reply := st.DissolveGroup(gid);
    }

    method ClearPendingRemovals(gid: GroupId, user: UserId, now: int) returns (reply: Reply)
      modifies st
      ensures var e := Event(Request.ClearPendingRemovals(user), now);
              st.groups == After(old(st.groups), gid, e) && reply == Answer(old(st.groups), gid, e)
    {
      if user == "" {
        return Refused(MissingPayload);
      }
      var loaded := LoadActiveGroupMember(gid, user);
      if loaded.Failed? {
        return Refused(loaded.error);
      }
      if loaded.g.members[user].role != Owner {
        return Refused(NotOwner);
      }
      reply := st.ClearPendingRemovals(gid);
    }

    /** Everything a join request must pass before its own row is stored. */
    method CheckJoinRequest(gid: GroupId, applicant: UserId, now: int) returns (reply: Reply)
      ensures reply == Answer(st.groups, gid, Event(AskToJoin(applicant), now))
      ensures st.groups == After(st.groups, gid, Event(AskToJoin(applicant), now))
    {
      if applicant == "" {
        return Refused(MissingPayload);
      }
      var loaded := LoadActiveGroup(gid);
      if loaded.Failed? {
        return Refused(loaded.error);
      }
      var transfer := SelectNewestPending(loaded.g.transfers);
      if transfer.At? {
        var owners := CountOwners(loaded.g.members);
        if owners == 0 {
          NoneCounted(loaded.g);
          return Refused(GroupOwnerUpdating);
        }
        SomeCounted(loaded.g);
      }
      if applicant in loaded.g.members {
        return Refused(AlreadyMember);
      }
      return Done;
    }
  }
}
