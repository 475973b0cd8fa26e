/** The group half of the store: one transaction per method, over the tables of all groups.

    The single database connection makes a transaction one step. A transaction works on its own
    copy tx of the group's rows; returning without storing tx is the deferred rollback. */
module GroupStore {
  import opened Ordered
  import opened GroupModel
  import opened CommitLog
  import opened Paging

  // ---------- queries ----------

  /** Is there a commit for the epoch in the log? */
  method SelectCommit(log: seq<LogRow>, epoch: int) returns (found: bool)
    ensures found == HasCommitAt(log, epoch)
  {
    for i := 0 to |log|
      invariant forall j | 0 <= j < i :: log[j].epoch != epoch || log[j].IsWelcome()
    {
      if log[i].epoch == epoch && !log[i].IsWelcome() {
        return true;
      }
    }
    return false;
  }

  /** The highest seq of the log, plus one. */
  method NextMLSSeq(log: seq<LogRow>) returns (n: nat)
    ensures n == NextLogSeq(log)
  {
    n := 1;
    for i := 0 to |log|
      invariant n == NextLogSeq(log[..i])
    {
      assert log[..i + 1][..i] == log[..i];
      if log[i].number >= n {
        n := log[i].number + 1;
      }
    }
    assert log[..|log|] == log;
  }

  /** Is the message id among the retained messages? */
  method SelectMsgId(queue: map<nat, MessageRow>, msgId: string) returns (found: bool)
    ensures found == HasMsgId(queue, msgId)
  {
    var rest := queue.Keys;
    while rest != {}
      invariant rest <= queue.Keys
      invariant forall k | k in queue && k !in rest :: queue[k].msgId != msgId
      decreases |rest|
    {
      var k :| k in rest;
      if queue[k].msgId == msgId {
        return true;
      }
      rest := rest - {k};
    }
    return false;
  }

  /** The highest retained seq; 0 for an empty queue. */
  method SelectMaxSeq(queue: map<nat, MessageRow>) returns (n: nat)
    ensures n == TopSeq(queue)
  {
    if queue.Keys == {} {
      return 0;
    }
    n := Greatest(queue.Keys);
  }

  /** The least cursor over the members, joined with the cursors they have; a missing one counts as 0. */
  method SelectSafeSeq(g: Group) returns (s: int)
    requires g.members.Keys != {}
    ensures |g.members| != 0 && s == SafeSeq(g)
  {
    assert |g.members| == |g.members.Keys| != 0;
    var u :| u in g.members.Keys;
    s := if u in g.cursors then g.cursors[u] else 0;
    var rest := g.members.Keys - {u};
    while rest != {}
      invariant rest <= g.members.Keys
      invariant exists v :: v in g.members && CursorOf(g, v) == s
      invariant forall v | v in g.members :: v in rest || s <= CursorOf(g, v)
      decreases |rest|
    {
      var v :| v in rest;
      rest := rest - {v};
      var joined := if v in g.cursors then g.cursors[v] else 0;
      assert CursorOf(g, v) == joined;
      if joined < s {
        s := joined;
      }
    }
    SafeSeqUnique(g, s, SafeSeq(g));
  }

  lemma SafeSeqUnique(g: Group, s: int, t: int)
    requires IsSafeSeq(g, s) && IsSafeSeq(g, t)
    ensures s == t
  {
    var u :| u in g.members && CursorOf(g, u) == s;
    var v :| v in g.members && CursorOf(g, v) == t;
  }

  /** How many owners there are. */
  method CountOwners(members: map<UserId, MemberRow>) returns (n: nat)
    ensures n == |set u | u in members && members[u].role == Owner|
  {
    n := 0;
    var rest := members.Keys;
    ghost var counted: set<UserId> := {};
    while rest != {}
      invariant rest <= members.Keys
      invariant counted == set u | u in members && u !in rest && members[u].role == Owner
      invariant n == |counted|
      decreases |rest|
    {
      var u :| u in rest;
      rest := rest - {u};
      if members[u].role == Owner {
        counted := counted + {u};
        n := n + 1;
      }
    }
    assert counted == set u | u in members && members[u].role == Owner;
  }

  /** Is a hand-over pending? */
  method SelectPending(ts: seq<TransferRow>) returns (found: bool)
    ensures found == HasPending(ts)
  {
    for i := 0 to |ts|
      invariant forall j | 0 <= j < i :: ts[j].state != Pending
    {
      if ts[i].state == Pending {
        return true;
      }
    }
    return false;
  }

  /** The pending hand-over recorded last. */
  method SelectNewestPending(ts: seq<TransferRow>) returns (f: Found)
    ensures f == NewestPending(ts)
  {
    f := Nowhere;
    for i := 0 to |ts|
      invariant f == NewestPending(ts[..i])
    {
      assert ts[..i + 1][..i] == ts[..i];
      if ts[i].state == Pending && (f.Nowhere? || ts[f.index].createdAt <= ts[i].createdAt) {
        f := At(i);
      }
    }
    assert ts[..|ts|] == ts;
  }

  lemma TakeLeast(all: seq<nat>, taken: seq<nat>, rest: set<nat>)
    requires rest != {} && all == taken + Ascending(rest)
    ensures |all| == |taken| + |rest| && all[|taken|] == MinOf(rest)
    ensures all == taken + [MinOf(rest)] + Ascending(rest - {MinOf(rest)})
  {
    hide Ascending;
    AscendingStep(rest);
    OneMoreTaken(taken, MinOf(rest), Ascending(rest - {MinOf(rest)}));
  }

  lemma OneMoreTaken(taken: seq<nat>, m: nat, left: seq<nat>)
    ensures taken + ([m] + left) == taken + [m] + left
    ensures (taken + ([m] + left))[|taken|] == m
  {}

  /** What is left of the rows after the first offset of them in ascending order. */
  method SkipRows(s: set<nat>, offset: nat) returns (rest: set<nat>, ghost skipped: seq<nat>)
    ensures Ascending(s) == skipped + Ascending(rest)
    ensures |skipped| == offset || (rest == {} && |skipped| < offset)
    ensures |s| == |skipped| + |rest|
  {
    hide Ascending;
    ghost var all := Ascending(s);
    rest, skipped := s, [];
    var n := 0;
    while rest != {} && n < offset
      invariant |s| == |skipped| + |rest|
      invariant all == skipped + Ascending(rest) && |skipped| == n <= offset
      decreases |rest|
    {
      var m := Least(rest);
      TakeLeast(all, skipped, rest);
      skipped := skipped + [m];
      rest := rest - {m};
      n := n + 1;
    }
  }

  /** The first limit rows in ascending order. */
  method TakeRows(s: set<nat>, limit: nat) returns (taken: seq<nat>, ghost rest: set<nat>)
    ensures Ascending(s) == taken + Ascending(rest)
    ensures |taken| == limit || (rest == {} && |taken| < limit)
  {
    hide Ascending;
    ghost var all := Ascending(s);
    var left := s;
    taken := [];
    while left != {} && |taken| < limit
      invariant all == taken + Ascending(left) && |taken| <= limit
      decreases |left|
    {
      var m := Least(left);
      TakeLeast(all, taken, left);
      taken := taken + [m];
      left := left - {m};
    }
    rest := left;
  }

  /** The seq at position offset in ascending order. */
  method SelectSeqAt(keys: set<nat>, offset: nat) returns (c: nat)
    requires offset < |keys|
    ensures c == Ascending(keys)[offset]
  {
    var rest, skipped := SkipRows(keys, offset);
    c := Least(rest);
    TakeLeast(Ascending(keys), skipped, rest);
  }

  /** Deletes the messages up to c and counts them. */
  method DeleteUpTo(queue: map<nat, MessageRow>, c: nat) returns (left: map<nat, MessageRow>, affected: nat)
    ensures left.Keys == Above(queue.Keys, c)
    ensures forall k | k in left :: left[k] == queue[k]
    ensures affected == |queue.Keys - Above(queue.Keys, c)|
  {
    var doomed := set k | k in queue && k <= c;
    left := queue - doomed;
    affected := |doomed|;
    assert left.Keys == Above(queue.Keys, c);
    assert doomed == queue.Keys - Above(queue.Keys, c);
  }

  datatype Queued = Queued(number: nat, row: MessageRow)

  function Numbers(ms: seq<Queued>): (q: seq<nat>)
    ensures |q| == |ms|
    ensures forall i | 0 <= i < |ms| :: q[i] == ms[i].number
  {
    seq(|ms|, i requires 0 <= i < |ms| => ms[i].number)
  }

  lemma TakenIsListed(keys: set<nat>, since: nat, n: nat, taken: seq<nat>, rest: set<nat>)
    requires Ascending(Above(keys, since)) == taken + Ascending(rest)
    requires |taken| == n || (rest == {} && |taken| < n)
    ensures taken == Listed(keys, since, n)
    ensures forall k | k in taken :: k in keys
  {
    var all := Ascending(Above(keys, since));
    assert all[..|taken|] == taken;
    if rest == {} {
      assert all == taken;
    }
    forall k | k in taken ensures k in keys {
      assert k in all;
    }
  }

  /** The messages above since in ascending order, at most limit of them. */
  method SelectMessages(queue: map<nat, MessageRow>, since: nat, limit: nat) returns (ms: seq<Queued>)
    ensures Numbers(ms) == Listed(queue.Keys, since, limit)
    ensures forall m | m in ms :: m.number in queue && m.row == queue[m.number]
  {
    var taken, rest := TakeRows(Above(queue.Keys, since), limit);
    TakenIsListed(queue.Keys, since, limit, taken, rest);
    ms := ScanRows(queue, taken);
  }

  /** One message per row, in the order of the rows. */
  method ScanRows(queue: map<nat, MessageRow>, rows: seq<nat>) returns (ms: seq<Queued>)
    requires forall k | k in rows :: k in queue
    ensures Numbers(ms) == rows
    ensures forall m | m in ms :: m.number in queue && m.row == queue[m.number]
  {
    ms := [];
    for i := 0 to |rows|
      invariant |ms| == i
      invariant forall j | 0 <= j < i :: ms[j] == Queued(rows[j], queue[rows[j]])
    {
      ms := ms + [Queued(rows[i], queue[rows[i]])];
    }
    assert Numbers(ms) == rows;
  }

  lemma InsertKeepsOrder(rows: seq<LogRow>, row: LogRow, p: nat)
    requires p <= |rows| && Sorted(rows)
    requires p > 0 ==> !Before(row, rows[p - 1])
    requires forall i | p <= i < |rows| :: Before(row, rows[i])
    ensures Sorted(rows[..p] + [row] + rows[p..])
  {
    forall i | 0 <= i < p ensures !Before(row, rows[i]) {
      if i < p - 1 { assert !Before(rows[p - 1], rows[i]); }
    }
    var more := rows[..p] + [row] + rows[p..];
    forall i, j | 0 <= i < j < |more| ensures !Before(more[j], more[i]) {
      OrderedPair(rows, row, p, i, j);
    }
  }

  lemma OrderedPair(rows: seq<LogRow>, row: LogRow, p: nat, i: nat, j: nat)
    requires p <= |rows| && i < j <= |rows|
    requires Sorted(rows)
    requires forall k | 0 <= k < p :: !Before(row, rows[k])
    requires forall k | p <= k < |rows| :: Before(row, rows[k])
    ensures !Before(if j < p then rows[j] else if j == p then row else rows[j - 1],
                    if i < p then rows[i] else if i == p then row else rows[i - 1])
  {}

  lemma InsertKeepsRows(rows: seq<LogRow>, row: LogRow, p: nat)
    requires p <= |rows|
    ensures multiset(rows[..p] + [row] + rows[p..]) == multiset(rows) + multiset{row}
  {
    assert rows == rows[..p] + rows[p..];
  }

  /** Puts row in its place by epoch, then seq. */
  method InsertRow(rows: seq<LogRow>, row: LogRow) returns (more: seq<LogRow>)
    requires Sorted(rows)
    ensures Sorted(more) && multiset(more) == multiset(rows) + multiset{row}
  {
    var p := |rows|;
    while p > 0 && Before(row, rows[p - 1])
      invariant 0 <= p <= |rows|
      invariant forall i | p <= i < |rows| :: Before(row, rows[i])
    {
      p := p - 1;
    }
    InsertKeepsOrder(rows, row, p);
    InsertKeepsRows(rows, row, p);
    more := rows[..p] + [row] + rows[p..];
  }

  lemma NothingSorted(rows: seq<LogRow>, visible: seq<LogRow>, log: seq<LogRow>, since: int)
    requires rows == [] && log == [] && visible == Visible(log, since)
    ensures Sorted(rows) && visible == []
  {}

  /** The log rows above the epoch that are not welcomes, sorted by epoch, then seq. */
  method SelectLogSince(log: seq<LogRow>, since: int) returns (rows: seq<LogRow>)
    ensures IsListing(rows, log, since)
  {
    hide Visible, Sorted;
    rows := [];
    NothingSorted(rows, Visible(log[..0], since), log[..0], since);
    for n := 0 to |log|
      invariant Sorted(rows) && multiset(rows) == multiset(Visible(log[..n], since))
    {
      assert log[..n + 1] == log[..n] + [log[n]];
      VisibleAppend(log[..n], log[n], since);
      if log[n].epoch > since && !log[n].IsWelcome() {
        rows := InsertRow(rows, log[n]);
      }
    }
    assert log[..|log|] == log;
  }

  // ---------- the two phases of a reclaim pass ----------

  /** Phase 1: drop what every current member has acknowledged. */
  method DeleteAcked(g: Group) returns (queue: map<nat, MessageRow>, minSeq: nat, affected: nat)
    ensures queue.Keys == Unacked(g) && forall k | k in queue :: queue[k] == g.queue[k]
    ensures minSeq == Max(g.minSeq, AckedByAll(g))
    ensures affected == |g.queue.Keys - Unacked(g)|
  {
    queue, minSeq, affected := g.queue, g.minSeq, 0;
    assert |g.members.Keys| == |g.members|;
    if g.members.Keys != {} {
      var safe := SelectSafeSeq(g);
      if safe > 0 {
        queue, affected := DeleteUpTo(g.queue, safe);
        if safe > minSeq {
          minSeq := safe;
        }
      }
    }
    if AckedByAll(g) == 0 {
      assert g.queue.Keys - Unacked(g) == {};
    }
  }

  /** Phase 2: drop the oldest rows beyond the cap. */
  method DeleteOverflow(before: map<nat, MessageRow>, floor: nat)
    returns (queue: map<nat, MessageRow>, minSeq: nat, affected: nat)
    ensures queue.Keys == Newest(before.Keys, QUEUE_MAX)
    ensures forall k | k in queue :: queue[k] == before[k]
    ensures minSeq == Max(floor, Cutoff(before.Keys, QUEUE_MAX))
    ensures affected == |before.Keys - Newest(before.Keys, QUEUE_MAX)|
  {
    hide Newest, Cutoff, Ascending;
    queue, minSeq, affected := before, floor, 0;
    var count := |before.Keys|;
    if count > QUEUE_MAX {
      var offset := count - QUEUE_MAX - 1;
      var cutoff := SelectSeqAt(before.Keys, offset);
      CutoffBeyond(before.Keys, QUEUE_MAX, cutoff);
      queue, affected := DeleteUpTo(before, cutoff);
      if cutoff > minSeq {
        minSeq := cutoff;
      }
    } else {
      NewestOfFew(before.Keys, QUEUE_MAX);
    }
  }

  lemma BothPhases(g: Group, queue: map<nat, MessageRow>, minSeq: nat)
    requires queue.Keys == Kept(g) && forall k | k in queue :: queue[k] == g.queue[k]
    requires minSeq == NewFloor(g)
    ensures ReclaimMessages(g).g ==
            g.(queue := queue, minSeq := if minSeq != 0 && g.minSeq < minSeq then minSeq else g.minSeq)
    ensures ReclaimMessages(g).reply == Reclaim(|g.queue.Keys - Unacked(g)|, |Unacked(g) - Kept(g)|, minSeq)
  {
    SameQueue(g.queue, Kept(g), queue);
    assert NewFloor(g) >= g.minSeq;
  }

  lemma SameQueue(before: map<nat, MessageRow>, kept: set<nat>, queue: map<nat, MessageRow>)
    requires kept <= before.Keys
    requires queue.Keys == kept && forall k | k in queue :: queue[k] == before[k]
    ensures queue == Retain(before, kept)
  {}

  // ---------- the store ----------

  lemma NoneCounted(g: Group)
    requires |set u | u in g.members && g.members[u].role == Owner| == 0
    ensures !HasOwner(g)
  {
    var owners := set u | u in g.members && g.members[u].role == Owner;
    forall u | u in g.members ensures g.members[u].role != Owner {
      assert u !in owners;
    }
  }

  lemma SomeCounted(g: Group)
    requires |set u | u in g.members && g.members[u].role == Owner| != 0
    ensures HasOwner(g)
  {
    var owners := set u | u in g.members && g.members[u].role == Owner;
    var u :| u in owners;
  }

  ghost function ActiveIds(groups: map<GroupId, Group>): set<GroupId> {
    set gid | gid in groups && groups[gid].state == Active
  }

  /** Rows offset to offset + limit of q, as far as they exist. */
  function PageOf(q: seq<nat>, offset: nat, limit: nat): seq<nat> {
    if offset >= |q| then [] else if offset + limit > |q| then q[offset..] else q[offset..offset + limit]
  }

  class Store {
    var groups: map<GroupId, Group>

    constructor ()
      ensures groups == map[]
    {
      groups := map[];
    }

    method CreateGroup(gid: GroupId, creator: UserId) returns (reply: Reply)
      modifies this
      ensures gid in old(groups) ==> groups == old(groups) && reply == Refused(DuplicateGroup)
      ensures gid !in old(groups) ==> groups == old(groups)[gid := NewGroup(creator)] && reply == Done
    {
      if gid in groups {
        return Refused(DuplicateGroup);
      }
      var row := Group(creator, Active, 0, 0, map[], map[], [], map[], [], {});
      row := row.(members := row.members[creator := MemberRow(Owner, row.epoch)]);
      groups := groups[gid := row];
      return Done;
    }

    method AppendGroupCommit(gid: GroupId, parent: int, epoch: int, kind: string, sender: UserId, data: string)
      returns (reply: Reply)
      modifies this
      ensures gid !in old(groups) ==> groups == old(groups) && reply == Refused(GroupNotFound)
      ensures gid in old(groups) ==>
                var o := AppendCommit(old(groups)[gid], parent, epoch, kind, sender, data);
                groups == old(groups)[gid := o.g] && reply == o.reply
    {
      if gid !in groups {
        return Refused(GroupNotFound);
      }
      var tx := groups[gid];
      var forked := SelectCommit(tx.log, epoch);
      if forked {
        return Refused(DuplicateCommitEpoch);
      }
      if parent != tx.epoch {
        return Refused(EpochParentMismatch);
      }
      if epoch <= tx.epoch {
        return Refused(EpochNotMonotonic);
      }
      var number := NextMLSSeq(tx.log);
      // Neither PRIMARY KEY (group_id, seq) nor the unique commit index can refuse this row.
      assert forall i | 0 <= i < |tx.log| ::
          tx.log[i].number != number && (tx.log[i].IsWelcome() || tx.log[i].epoch != epoch);
      tx := tx.(log := tx.log + [LogRow(number, epoch, kind, sender, "", data)]);
      tx := tx.(epoch := epoch);
      groups := groups[gid := tx];
      return AtSeq(number);
    }

    method AppendWelcome(gid: GroupId, sender: UserId, target: UserId, epoch: int, data: string)
      returns (reply: Reply)
      modifies this
      ensures gid !in old(groups) ==> groups == old(groups) && reply == Refused(GroupNotFound)
      ensures gid in old(groups) ==>
                var o := GroupModel.AppendWelcome(old(groups)[gid], sender, target, epoch, data);
                groups == old(groups)[gid := o.g] && reply == o.reply
    {
      if gid !in groups {
        return Refused(GroupNotFound);
      }
      var tx := groups[gid];
      var number := NextMLSSeq(tx.log);
      tx := tx.(log := tx.log + [LogRow(number, epoch, "welcome", sender, target, data)]);
      if target !in tx.members && |tx.members| >= MEMBERS_MAX {
        return Refused(GroupFull); // the row just inserted is rolled back
      }
      if target !in tx.members { // INSERT OR IGNORE
        tx := tx.(members := tx.members[target := MemberRow(Member, epoch)]);
      }
      groups := groups[gid := tx];
      return AtSeq(number);
    }

    method AppendGroupMessage(gid: GroupId, row: MessageRow) returns (reply: Reply)
      modifies this
      ensures gid !in old(groups) ==> groups == old(groups) && reply == Refused(ForeignKeyFailed)
      ensures gid in old(groups) ==>
                var o := AppendMessage(old(groups)[gid], row);
                groups == old(groups)[gid := o.g] && reply == o.reply
    {
      if gid !in groups {
        return Refused(ForeignKeyFailed);
      }
      var tx := groups[gid];
      var duplicate := SelectMsgId(tx.queue, row.msgId);
      if duplicate {
        return Refused(DuplicateGroupMsg);
      }
      var top := SelectMaxSeq(tx.queue);
      var number := if tx.queue.Keys == {} then 1 else top + 1;
      assert number !in tx.queue;
      tx := tx.(queue := tx.queue[number := row]);
      groups := groups[gid := tx];
      return AtSeq(number);
    }

    method ListGroupMessages(gid: GroupId, since: nat, limit: nat) returns (ms: seq<Queued>)
      ensures gid !in groups ==> ms == []
      ensures gid in groups ==>
                && Numbers(ms) == Listed(groups[gid].queue.Keys, since, limit)
                && forall m | m in ms :: m.number in groups[gid].queue && m.row == groups[gid].queue[m.number]
    {
      if gid !in groups {
        return [];
      }
      ms := SelectMessages(groups[gid].queue, since, limit);
    }

    method ListMLSLogSince(gid: GroupId, since: int) returns (rows: seq<LogRow>)
      ensures gid !in groups ==> rows == []
      ensures gid in groups ==> IsListing(rows, groups[gid].log, since)
    {
      if gid !in groups {
        return [];
      }
      rows := SelectLogSince(groups[gid].log, since);
    }

    method UpsertGroupCursor(gid: GroupId, user: UserId, lastSeq: int) returns (reply: Reply)
      modifies this
      ensures gid !in old(groups) ==> groups == old(groups) && reply == Refused(ForeignKeyFailed)
      ensures gid in old(groups) ==>
                var o := UpsertCursor(old(groups)[gid], user, lastSeq);
                groups == old(groups)[gid := o.g] && reply == o.reply
    {
      if gid !in groups {
        return Refused(ForeignKeyFailed);
      }
      var tx := groups[gid];
      if user !in tx.cursors || lastSeq > tx.cursors[user] {
        tx := tx.(cursors := tx.cursors[user := lastSeq]);
      }
      reply := Cursor(tx.cursors[user]);
      assert tx.cursors == tx.cursors[user := tx.cursors[user]];
      groups := groups[gid := tx];
    }

    /** A missing cursor row reads as 0. */
    method GetGroupCursor(gid: GroupId, user: UserId) returns (lastSeq: int)
      ensures lastSeq == if gid in groups then CursorOf(groups[gid], user) else 0
    {
      if gid in groups && user in groups[gid].cursors {
        return groups[gid].cursors[user];
      }
      return 0;
    }

    method LeaveGroup(gid: GroupId, user: UserId, successor: UserId, now: int) returns (reply: Reply)
      modifies this
      ensures gid !in old(groups) ==> groups == old(groups) && reply == Refused(GroupNotFound)
      ensures gid in old(groups) ==>
                var o := GroupModel.LeaveGroup(old(groups)[gid], user, successor, now);
                groups == old(groups)[gid := o.g] && reply == o.reply
    {
      if gid !in groups {
        return Refused(GroupNotFound);
      }
      var tx := groups[gid];
      if user !in tx.members {
        return Left(false, false, "");
      }
      var dissolved, named := false, "";
      if tx.members[user].role == Owner {
        if tx.members.Keys - {user} == {} {
          tx := tx.(state := Dissolved);
          dissolved := true;
        } else {
          if successor == "" {
            return Refused(SuccessorRequired);
          }
          if successor == user || successor !in tx.members {
            return Refused(InvalidSuccessor);
          }
          tx := tx.(transfers := tx.transfers + [TransferRow(user, successor, Pending, now)]);
          named := successor;
        }
      }
      tx := tx.(members := tx.members - {user});
      tx := tx.(cursors := tx.cursors - {user});
      if !dissolved {
        tx := tx.(removals := tx.removals + {user});
      }
      groups := groups[gid := tx];
      return Left(dissolved, !dissolved, named);
    }

    method RemoveGroupMember(gid: GroupId, user: UserId) returns (reply: Reply)
      modifies this
      ensures gid !in old(groups) ==> groups == old(groups) && reply == Done
      ensures gid in old(groups) ==>
                groups == old(groups)[gid := RemoveMember(old(groups)[gid], user).g] && reply == Done
    {
      if gid in groups {
        var tx := groups[gid];
        tx := tx.(members := tx.members - {user});
        tx := tx.(cursors := tx.cursors - {user});
        groups := groups[gid := tx];
      }
      return Done;
    }

    method CreateOwnerTransfer(gid: GroupId, prevOwner: UserId, designee: UserId, now: int) returns (reply: Reply)
      modifies this
      ensures gid !in old(groups) ==> groups == old(groups) && reply == Refused(InvalidSuccessor)
      ensures gid in old(groups) ==>
                var o := CreateTransfer(old(groups)[gid], prevOwner, designee, now);
                groups == old(groups)[gid := o.g] && reply == o.reply
    {
      if prevOwner == designee || gid !in groups {
        return Refused(InvalidSuccessor);
      }
      var tx := groups[gid];
      var pending := SelectPending(tx.transfers);
      if pending {
        return Refused(TransferPending);
      }
      if designee !in tx.members {
        return Refused(InvalidSuccessor);
      }
      tx := tx.(transfers := tx.transfers + [TransferRow(prevOwner, designee, Pending, now)]);
      groups := groups[gid := tx];
      return Done;
    }

    method DecideOwnerTransfer(gid: GroupId, designee: UserId, accept: bool) returns (reply: Reply)
      modifies this
      ensures gid !in old(groups) ==> groups == old(groups) && reply == Refused(TransferNotFound)
      ensures gid in old(groups) ==>
                var o := DecideTransfer(old(groups)[gid], designee, accept);
                groups == old(groups)[gid := o.g] && reply == o.reply
    {
      if gid !in groups {
        return Refused(TransferNotFound);
      }
      var tx := groups[gid];
      var newest := SelectNewestPending(tx.transfers);
      if newest.Nowhere? {
        return Refused(TransferNotFound);
      }
      var t := tx.transfers[newest.index];
      if t.designee != designee {
        return Refused(NotDesignee);
      }
      if accept {
        if designee !in tx.members {
          return Refused(InvalidSuccessor);
        }
        if t.prevOwner in tx.members && tx.members[t.prevOwner].role == Owner {
          tx := tx.(members := tx.members[t.prevOwner := tx.members[t.prevOwner].(role := Member)]);
        }
        tx := tx.(members := tx.members[designee := tx.members[designee].(role := Owner)]);
        t := t.(state := Accepted);
      } else {
        var owners := CountOwners(tx.members);
        if owners == 0 {
          assert !HasOwner(tx) by { NoneCounted(tx); }
          tx := tx.(state := Dissolved);
        } else {
          assert HasOwner(tx) by { SomeCounted(tx); }
        }
        t := t.(state := Declined);
      }
      tx := tx.(transfers := tx.transfers[newest.index := t]);
      groups := groups[gid := tx];
      return Done;
    }

    method DissolveGroup(gid: GroupId) returns (reply: Reply)
      modifies this
      ensures reply == Done
      ensures groups == if gid in old(groups)
                        then old(groups)[gid := GroupModel.DissolveGroup(old(groups)[gid]).g]
                        else old(groups)
    {
      if gid in groups {
        groups := groups[gid := groups[gid].(state := Dissolved)];
      }
      return Done;
    }

    method ClearPendingRemovals(gid: GroupId) returns (reply: Reply)
      modifies this
      ensures reply == Done
      ensures groups == if gid in old(groups)
                        then old(groups)[gid := ClearRemovals(old(groups)[gid]).g]
                        else old(groups)
    {
      if gid in groups {
        groups := groups[gid := groups[gid].(removals := {})];
      }
      return Done;
    }

    method ReclaimGroupMessages(gid: GroupId) returns (reply: Reply)
      modifies this
      ensures gid !in old(groups) ==> groups == old(groups) && reply == Refused(GroupNotFound)
      ensures gid in old(groups) ==>
                var o := ReclaimMessages(old(groups)[gid]);
                groups == old(groups)[gid := o.g] && reply == o.reply
    {
      if gid !in groups {
        return Refused(GroupNotFound);
      }
      var tx := groups[gid];
      ghost var g := tx;
      var queue, minSeq, byCursor := DeleteAcked(tx);
      tx := tx.(queue := queue);
      var byCap;
      queue, minSeq, byCap := DeleteOverflow(tx.queue, minSeq);
      tx := tx.(queue := queue);
      BothPhases(g, queue, minSeq);
      if minSeq != 0 && tx.minSeq < minSeq {
        tx := tx.(minSeq := minSeq);
      }
      groups := groups[gid := tx];
      return Reclaim(byCursor, byCap, minSeq);
    }

    /** Active groups in id order, from offset, at most limit of them. */
    method ListActiveGroupIDsPage(limit: nat, offset: nat) returns (ids: seq<GroupId>)
      ensures ids == PageOf(Ascending(ActiveIds(groups)), offset, limit)
    {
      var active := set gid | gid in groups && groups[gid].state == Active;
      var rest, skipped := SkipRows(active, offset);
      ghost var left;
      ids, left := TakeRows(rest, limit);
      PageReached(Ascending(active), skipped, ids, rest, left, offset, limit);
    }
  }

  lemma PageReached(all: seq<nat>, skipped: seq<nat>, ids: seq<nat>, rest: set<nat>, left: set<nat>,
                    offset: nat, limit: nat)
    requires all == skipped + Ascending(rest) && (|skipped| == offset || (rest == {} && |skipped| < offset))
    requires Ascending(rest) == ids + Ascending(left) && (|ids| == limit || (left == {} && |ids| < limit))
    ensures ids == PageOf(all, offset, limit)
  {
    MiddleIsPage(all, skipped, ids, Ascending(left), offset, limit);
  }

  lemma MiddleIsPage(all: seq<nat>, skipped: seq<nat>, ids: seq<nat>, left: seq<nat>, offset: nat, limit: nat)
    requires all == skipped + (ids + left)
    requires |skipped| == offset || (ids + left == [] && |skipped| < offset)
    requires |ids| == limit || (left == [] && |ids| < limit)
    ensures ids == PageOf(all, offset, limit)
  {
    Middle(skipped, ids, left);
  }

  lemma Middle(a: seq<nat>, b: seq<nat>, c: seq<nat>)
    ensures (a + (b + c))[|a|..] == b + c
    ensures (a + (b + c))[|a|..|a| + |b|] == b
  {}
}
