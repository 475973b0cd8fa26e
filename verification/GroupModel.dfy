/** One group's rows in the relay's tables, and what each store transaction does to them.

    A group is everything the tables hold under one group_id. Blobs, ciphertext and hashes are
    opaque strings. Each transaction is a total function from the rows before it to the rows
    after it and a reply; a refused transaction rolls back, so it returns the rows it was given. */
module GroupModel {
  import opened Ordered

  type UserId = string

  /** Ten base-36 characters read as a number: all ids have the same length, so the order of ids
      as text is the numeric order. */
  type GroupId = nat

  const QUEUE_MAX: nat := 10000
  const MEMBERS_MAX: nat := 1000

  // ---------- rows ----------

  datatype Role = Owner | Admin | Member

  datatype LifeState = Active | Dissolved

  datatype MemberRow = MemberRow(role: Role, joinedEpoch: int)

  datatype LogRow = LogRow(number: nat, epoch: int, kind: string, sender: UserId, target: UserId, data: string)
  {
    predicate IsWelcome() { kind == "welcome" }
  }

  datatype MessageRow = MessageRow(epoch: int, sender: UserId, msgId: string, body: string)

  datatype TransferState = Pending | Accepted | Declined

  /** Rows are listed in the order of their AUTOINCREMENT id. */
  datatype TransferRow =
    TransferRow(prevOwner: UserId, designee: UserId, state: TransferState, createdAt: int)

  /** members, cursors and queue are keyed as the tables' primary keys are; log and transfers are
      listed in insertion order. */
  datatype Group = Group(
    creator: UserId,
    state: LifeState,
    epoch: int,
    minSeq: nat,
    members: map<UserId, MemberRow>,
    cursors: map<UserId, int>,
    log: seq<LogRow>,
    queue: map<nat, MessageRow>,
    transfers: seq<TransferRow>,
    removals: set<UserId>)

  datatype Error =
    | MissingPayload | GroupNotFound | GroupDissolved | NotGroupMember | Forbidden | NotOwner
    | InvalidTarget | DuplicateGroup | GroupFull | SuccessorRequired | InvalidSuccessor
    | DuplicateGroupMsg | DuplicateCommitEpoch | EpochParentMismatch | EpochNotMonotonic
    | EpochBeforeJoin | EpochMismatch | InvalidLastSeq | SeqOutOfRange
    | TransferNotFound | TransferPending | NotDesignee
    | GroupOwnerUpdating | AlreadyMember | ForeignKeyFailed | Unauthorized

  datatype Reply =
    | Done
    | AtSeq(number: nat)
    | Cursor(lastSeq: int)
    | Left(dissolved: bool, pendingRemoval: bool, successor: UserId)
    | Reclaim(deletedByCursor: nat, deletedByCap: nat, minSeq: nat)
    | Refused(error: Error)

  datatype Outcome = Outcome(g: Group, reply: Reply)

  // ---------- reading the rows ----------

  predicate IsOwner(g: Group, u: UserId) {
    u in g.members && g.members[u].role == Owner
  }

  predicate HasOwner(g: Group) {
    exists u | u in g.members :: g.members[u].role == Owner
  }

  predicate IsPending(ts: seq<TransferRow>, i: int) {
    0 <= i < |ts| && ts[i].state == Pending
  }

  predicate HasPending(ts: seq<TransferRow>) {
    exists i | 0 <= i < |ts| :: ts[i].state == Pending
  }

  /** Row i is not older than row j: by creation time, then by id. */
  predicate NotOlder(ts: seq<TransferRow>, i: nat, j: nat)
    requires i < |ts| && j < |ts|
  {
    ts[i].createdAt > ts[j].createdAt || (ts[i].createdAt == ts[j].createdAt && i >= j)
  }

  datatype Found = Nowhere | At(index: nat)

  /** The newest pending hand-over. */
  function NewestPending(ts: seq<TransferRow>): (f: Found)
    ensures f.Nowhere? <==> !HasPending(ts)
    ensures f.At? ==> IsPending(ts, f.index)
    ensures f.At? ==> forall j | 0 <= j < |ts| && ts[j].state == Pending :: NotOlder(ts, f.index, j)
  {
    if ts == [] then Nowhere else
      var n := |ts| - 1;
      var rest := NewestPending(ts[..n]);
      assert ts == ts[..n] + [ts[n]];
      if ts[n].state == Pending && (rest.Nowhere? || ts[rest.index].createdAt <= ts[n].createdAt)
      then At(n)
      else rest
  }

  /** A missing cursor counts as 0. */
  function CursorOf(g: Group, u: UserId): int {
    if u in g.cursors then g.cursors[u] else 0
  }

  ghost predicate IsSafeSeq(g: Group, s: int) {
    && (exists u :: u in g.members && CursorOf(g, u) == s)
    && forall u | u in g.members :: s <= CursorOf(g, u)
  }

  lemma {:induction false} SafeSeqExists(g: Group, us: set<UserId>)
    requires us != {} && us <= g.members.Keys
    ensures exists u :: u in us && forall v | v in us :: CursorOf(g, u) <= CursorOf(g, v)
    decreases |us|
  {
    var a :| a in us;
    var rest := us - {a};
    if rest == {} {
      assert us == {a};
      assert a in us && forall v | v in us :: CursorOf(g, a) <= CursorOf(g, v);
    } else {
      SafeSeqExists(g, rest);
      var m :| m in rest && forall v | v in rest :: CursorOf(g, m) <= CursorOf(g, v);
      var least := if CursorOf(g, a) < CursorOf(g, m) then a else m;
      forall v | v in us ensures CursorOf(g, least) <= CursorOf(g, v) {
        assert v == a || v in rest;
      }
    }
  }

  /** The least cursor over the current members. */
  ghost function SafeSeq(g: Group): (s: int)
    requires |g.members| != 0
    ensures IsSafeSeq(g, s)
  {
    assert g.members.Keys != {} by { assert |g.members.Keys| == |g.members|; }
    SafeSeqExists(g, g.members.Keys);
    var u :| u in g.members.Keys && forall v | v in g.members.Keys :: CursorOf(g, u) <= CursorOf(g, v);
    CursorOf(g, u)
  }

  /** MAX(seq) + 1 over the retained rows, 1 for an empty queue. */
  ghost function NextSeq(queue: map<nat, MessageRow>): nat {
    if queue.Keys == {} then 1 else MaxOf(queue.Keys) + 1
  }

  /** The highest queued seq, 0 for an empty queue. */
  ghost function TopSeq(queue: map<nat, MessageRow>): nat {
    NextSeq(queue) - 1
  }

  /** MAX(seq) + 1 over the log, 1 for an empty log. */
  function NextLogSeq(log: seq<LogRow>): (n: nat)
    ensures n >= 1
    ensures forall i | 0 <= i < |log| :: log[i].number < n
  {
    if log == [] then 1 else
      var m := NextLogSeq(log[..|log| - 1]);
      var top := log[|log| - 1].number;
      assert log == log[..|log| - 1] + [log[|log| - 1]];
      if top >= m then top + 1 else m
  }

  predicate HasCommitAt(log: seq<LogRow>, epoch: int) {
    exists i | 0 <= i < |log| :: log[i].epoch == epoch && !log[i].IsWelcome()
  }

  predicate HasMsgId(queue: map<nat, MessageRow>, msgId: string) {
    exists k | k in queue :: queue[k].msgId == msgId
  }

  // ---------- transactions ----------

  function NewGroup(creator: UserId): Group {
    Group(creator, Active, 0, 0, map[creator := MemberRow(Owner, 0)], map[], [], map[], [], {})
  }

  function AppendCommit(g: Group, parent: int, epoch: int, kind: string, sender: UserId, data: string): (o: Outcome)
    ensures o.g == g.(log := o.g.log, epoch := o.g.epoch)
  {
    if HasCommitAt(g.log, epoch) then Outcome(g, Refused(DuplicateCommitEpoch))
    else if parent != g.epoch then Outcome(g, Refused(EpochParentMismatch))
    else if epoch <= g.epoch then Outcome(g, Refused(EpochNotMonotonic))
    else
      var row := LogRow(NextLogSeq(g.log), epoch, kind, sender, "", data);
      Outcome(g.(log := g.log + [row], epoch := epoch), AtSeq(row.number))
  }

  function AppendWelcome(g: Group, sender: UserId, target: UserId, epoch: int, data: string): (o: Outcome)
    ensures o.g == g.(log := o.g.log, members := o.g.members)
  {
    if target !in g.members && |g.members| >= MEMBERS_MAX then Outcome(g, Refused(GroupFull))
    else
      var row := LogRow(NextLogSeq(g.log), epoch, "welcome", sender, target, data);
      var members := if target in g.members then g.members else g.members[target := MemberRow(Member, epoch)];
      Outcome(g.(log := g.log + [row], members := members), AtSeq(row.number))
  }

  ghost function AppendMessage(g: Group, row: MessageRow): (o: Outcome)
    ensures o.g == g.(queue := o.g.queue)
  {
    if HasMsgId(g.queue, row.msgId) then Outcome(g, Refused(DuplicateGroupMsg))
    else Outcome(g.(queue := g.queue[NextSeq(g.queue) := row]), AtSeq(NextSeq(g.queue)))
  }

  function UpsertCursor(g: Group, user: UserId, lastSeq: int): (o: Outcome)
    ensures o.g == g.(cursors := o.g.cursors)
  {
    var stored := if user in g.cursors && g.cursors[user] >= lastSeq then g.cursors[user] else lastSeq;
    Outcome(g.(cursors := g.cursors[user := stored]), Cursor(stored))
  }

  function Without(g: Group, user: UserId): Group {
    g.(members := g.members - {user}, cursors := g.cursors - {user})
  }

  function LeaveGroup(g: Group, user: UserId, successor: UserId, now: int): (o: Outcome)
    ensures o.g == g.(members := o.g.members, cursors := o.g.cursors, state := o.g.state,
                      transfers := o.g.transfers, removals := o.g.removals)
  {
    if user !in g.members then Outcome(g, Left(false, false, ""))
    else if g.members[user].role != Owner then
      Outcome(Without(g, user).(removals := g.removals + {user}), Left(false, true, ""))
    else if g.members.Keys - {user} == {} then
      Outcome(Without(g, user).(state := Dissolved), Left(true, false, ""))
    else if successor == "" then Outcome(g, Refused(SuccessorRequired))
    else if successor == user || successor !in g.members then Outcome(g, Refused(InvalidSuccessor))
    else
      var row := TransferRow(user, successor, Pending, now);
      Outcome(Without(g, user).(transfers := g.transfers + [row], removals := g.removals + {user}),
              Left(false, true, successor))
  }

  function RemoveMember(g: Group, user: UserId): (o: Outcome)
    ensures o.g == g.(members := o.g.members, cursors := o.g.cursors)
  {
    Outcome(Without(g, user), Done)
  }

  function CreateTransfer(g: Group, prevOwner: UserId, designee: UserId, now: int): (o: Outcome)
    ensures o.g == g.(transfers := o.g.transfers)
  {
    if prevOwner == designee then Outcome(g, Refused(InvalidSuccessor))
    else if HasPending(g.transfers) then Outcome(g, Refused(TransferPending))
    else if designee !in g.members then Outcome(g, Refused(InvalidSuccessor))
    else Outcome(g.(transfers := g.transfers + [TransferRow(prevOwner, designee, Pending, now)]), Done)
  }

  function Demote(members: map<UserId, MemberRow>, u: UserId): map<UserId, MemberRow> {
    if u in members && members[u].role == Owner then members[u := members[u].(role := Member)] else members
  }

  function Promote(members: map<UserId, MemberRow>, u: UserId): map<UserId, MemberRow> {
    if u in members then members[u := members[u].(role := Owner)] else members
  }

  function DecideTransfer(g: Group, designee: UserId, accept: bool): (o: Outcome)
    ensures o.g == g.(members := o.g.members, state := o.g.state, transfers := o.g.transfers)
  {
    match NewestPending(g.transfers)
    case Nowhere => Outcome(g, Refused(TransferNotFound))
    case At(i) =>
      var t := g.transfers[i];
      if t.designee != designee then Outcome(g, Refused(NotDesignee))
      else if accept then
        if designee !in g.members then Outcome(g, Refused(InvalidSuccessor))
        else
          Outcome(g.(members := Promote(Demote(g.members, t.prevOwner), designee),
                     transfers := g.transfers[i := t.(state := Accepted)]), Done)
      else
        Outcome(g.(state := if HasOwner(g) then g.state else Dissolved,
                   transfers := g.transfers[i := t.(state := Declined)]), Done)
  }

  function DissolveGroup(g: Group): (o: Outcome)
    ensures o.g == g.(state := o.g.state)
  {
    Outcome(g.(state := Dissolved), Done)
  }

  function ClearRemovals(g: Group): (o: Outcome)
    ensures o.g == g.(removals := o.g.removals)
  {
    Outcome(g.(removals := {}), Done)
  }

  // ---------- the retention pass, as a specification ----------

  /** The seq up to which every current member has acknowledged; 0 blocks the cursor phase. */
  ghost function AckedByAll(g: Group): nat {
    if |g.members| == 0 || SafeSeq(g) <= 0 then 0 else SafeSeq(g)
  }

  ghost function Unacked(g: Group): (s: set<nat>)
    ensures s <= g.queue.Keys
  {
    if AckedByAll(g) == 0 then g.queue.Keys else Above(g.queue.Keys, AckedByAll(g))
  }

  ghost function Kept(g: Group): (s: set<nat>)
    ensures IsNewest(s, Unacked(g), QUEUE_MAX)
  {
    Newest(Unacked(g), QUEUE_MAX)
  }

  /** The highest seq the cap drops, 0 when it drops nothing. */
  ghost function CapCutoff(g: Group): nat {
    Cutoff(Unacked(g), QUEUE_MAX)
  }

  function Max(a: nat, b: nat): nat { if a < b then b else a }

  ghost function NewFloor(g: Group): nat {
    Max(Max(g.minSeq, AckedByAll(g)), CapCutoff(g))
  }

  function Retain(queue: map<nat, MessageRow>, kept: set<nat>): (left: map<nat, MessageRow>)
    ensures left.Keys == queue.Keys * kept
    ensures forall k | k in left :: left[k] == queue[k]
  {
    queue - (queue.Keys - kept)
  }

  ghost function ReclaimMessages(g: Group): (o: Outcome)
    ensures o.g == g.(queue := o.g.queue, minSeq := o.g.minSeq)
  {
    Outcome(
      g.(queue := Retain(g.queue, Kept(g)), minSeq := NewFloor(g)),
      Reclaim(|g.queue.Keys - Unacked(g)|, |Unacked(g) - Kept(g)|, NewFloor(g)))
  }
}
