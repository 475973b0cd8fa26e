/** The rows of the ownership hand-overs: what a decision does to them, and that it is final. */
module HandOvers {
  import opened GroupModel
  import opened GroupRequests
  import opened GroupRuns

  predicate SameParties(a: TransferRow, b: TransferRow) {
    a.prevOwner == b.prevOwner && a.designee == b.designee && a.createdAt == b.createdAt
  }

  /** after holds the rows of before, of which row i has been decided. */
  predicate Decided(before: seq<TransferRow>, after: seq<TransferRow>, i: nat, accept: bool) {
    && |after| == |before| && i < |before|
    && (forall j | 0 <= j < |before| :: SameParties(before[j], after[j]))
    && after[i].state == (if accept then Accepted else Declined)
    && forall j | 0 <= j < |before| && j != i :: after[j].state == before[j].state
  }

  /** The answer of the newest designee (to accept it, one who is still a member) decides the newest pending
      row and no other; every other answer is refused and changes nothing. */
  lemma DecisionSettlesNewest(g: Group, designee: UserId, accept: bool)
    ensures var o, newest := DecideTransfer(g, designee, accept), NewestPending(g.transfers);
            && (o.reply == Done <==> newest.At? && g.transfers[newest.index].designee == designee &&
                                     (accept ==> designee in g.members))
            && (o.reply == Done ==> Decided(g.transfers, o.g.transfers, newest.index, accept))
            && (o.reply != Done ==> o.g == g && o.reply.Refused?)
  {
    hide NewestPending, HasOwner;
  }

  /** After a decision a row is pending exactly when it was before and is not the one decided. */
  lemma PendingAfterDecision(g: Group, designee: UserId, accept: bool, i: int)
    requires DecideTransfer(g, designee, accept).reply == Done
    ensures IsPending(DecideTransfer(g, designee, accept).g.transfers, i) <==>
            IsPending(g.transfers, i) && At(i) != NewestPending(g.transfers)
  {
    DecisionSettlesNewest(g, designee, accept);
    hide NewestPending, DecideTransfer;
  }

  ghost predicate OnlyPending(g: Group, i: nat) {
    IsPending(g.transfers, i) && forall j | IsPending(g.transfers, j) :: j == i
  }

  lemma NewestOfOnly(g: Group, i: nat)
    requires OnlyPending(g, i)
    ensures NewestPending(g.transfers) == At(i)
  {
    assert HasPending(g.transfers);
    assert IsPending(g.transfers, NewestPending(g.transfers).index);
  }

  /** When the only pending hand-over has been decided, nothing is pending: the same designee's next answer
      finds no hand-over, and the owner's next offer to another member is recorded. */
  lemma DecidedOnce(g: Group, i: nat, accept: bool, again: bool, owner: UserId, next: UserId, now: int)
    requires OnlyPending(g, i) && (accept ==> g.transfers[i].designee in g.members)
    ensures var designee := g.transfers[i].designee;
            var o := DecideTransfer(g, designee, accept);
            && o.reply == Done && !HasPending(o.g.transfers)
            && DecideTransfer(o.g, designee, again) == Outcome(o.g, Refused(TransferNotFound))
            && (owner != "" && next != "" && next != owner && next in o.g.members &&
                IsOwner(o.g, owner) && o.g.state == Active ==>
                  Handle(o.g, Event(StartTransfer(owner, next), now)) ==
                  Outcome(o.g.(transfers := o.g.transfers + [TransferRow(owner, next, Pending, now)]), Done))
  {
    var designee := g.transfers[i].designee;
    NewestOfOnly(g, i);
    DecisionSettlesNewest(g, designee, accept);
    hide DecideTransfer, NewestPending;
    var after := DecideTransfer(g, designee, accept).g;
    forall j | 0 <= j < |after.transfers| ensures after.transfers[j].state != Pending {
      PendingAfterDecision(g, designee, accept, j);
    }
    NothingToDecide(after, designee, again);
  }

  lemma NothingToDecide(g: Group, designee: UserId, accept: bool)
    requires !HasPending(g.transfers)
    ensures DecideTransfer(g, designee, accept) == Outcome(g, Refused(TransferNotFound))
  {
    hide NewestPending;
  }

  // ---------- over whole runs ----------

  /** after has all rows of before with the same parties, and those that were decided as they were. */
  predicate Kept(before: seq<TransferRow>, after: seq<TransferRow>) {
    && |before| <= |after|
    && forall j | 0 <= j < |before| ::
         SameParties(before[j], after[j]) && (before[j].state != Pending ==> after[j].state == before[j].state)
  }

  lemma KeptStep(g: Group, t: Event)
    ensures Kept(g.transfers, Act(g, t).g.transfers)
  {
    match t.request
    case Decide(user, accept) =>
      DecisionSettlesNewest(g, user, accept);
      hide DecideTransfer, NewestPending;
    case StartTransfer(_, _) =>
    case Leave(_, _) =>
    case _ =>
      hide Act;
      OwnershipFootprint(g, t);
  }

  /** Over any transactions in any order, from any state: no hand-over is ever lost or changes its parties,
      and what has been accepted or declined stays so. */
  lemma {:induction false} DecisionsAreFinal(g: Group, ts: seq<Event>)
    ensures Kept(g.transfers, Settled(g, ts).transfers)
    decreases |ts|
  {
    hide Act;
    if ts != [] {
      DecisionsAreFinal(g, ts[..|ts| - 1]);
      KeptStep(Settled(g, ts[..|ts| - 1]), ts[|ts| - 1]);
    }
  }
}
