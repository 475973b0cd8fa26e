/** The MLS log and the chain of accepted commits, over every interleaving of requests. */
module CommitLog {
  import opened GroupModel
  import opened GroupRequests
  import opened GroupRuns

  // ---------- the log ----------

  ghost predicate LogWf(g: Group) {
    && (forall i | 0 <= i < |g.log| :: g.log[i].number == i + 1)
    && (forall i | 0 <= i < |g.log| && !g.log[i].IsWelcome() :: g.log[i].epoch <= g.epoch)
    && forall i, j | 0 <= i < j < |g.log| && !g.log[i].IsWelcome() && !g.log[j].IsWelcome() ::
         g.log[i].epoch < g.log[j].epoch
  }

  lemma {:induction false} NextIsLengthPlusOne(log: seq<LogRow>)
    requires forall i | 0 <= i < |log| :: log[i].number == i + 1
    ensures NextLogSeq(log) == |log| + 1
    decreases |log|
  {
    if log != [] {
      NextIsLengthPlusOne(log[..|log| - 1]);
    }
  }

  /** Only commits and welcomes write the log, and only commits move the epoch. */
  lemma LogFrame(g: Group, t: Event)
    requires !t.request.Commit?
    ensures Act(g, t).g.epoch == g.epoch
    ensures Act(g, t).g.log == g.log ||
            exists row: LogRow :: row.IsWelcome() && Act(g, t).g.log == g.log + [row]
    ensures !t.request.Welcome? ==> Act(g, t).g.log == g.log
  {
    hide AppendCommit, AppendMessage, UpsertCursor, LeaveGroup, RemoveMember, CreateTransfer, DecideTransfer,
         DissolveGroup, ClearRemovals, ReclaimMessages, NextLogSeq;
    LogFootprint(g, t);
  }

  lemma LogAppended(g: Group, row: LogRow, g': Group)
    requires LogWf(g)
    requires g'.log == g.log + [row] && g'.epoch >= g.epoch
    requires row.number == |g.log| + 1
    requires row.IsWelcome() || g'.epoch == row.epoch > g.epoch
    ensures LogWf(g')
  {}

  /** One transaction only ever appends to the log, and never moves the epoch back. */
  lemma LogStep(g: Group, t: Event)
    requires LogWf(g)
    ensures LogWf(Act(g, t).g)
    ensures g.log <= Act(g, t).g.log
    ensures g.epoch <= Act(g, t).g.epoch
  {
    NextIsLengthPlusOne(g.log);
    var g' := Act(g, t).g;
    match t.request
    case Commit(user, parent, epoch, kind, data) =>
      if g'.log != g.log {
        LogAppended(g, LogRow(NextLogSeq(g.log), epoch, kind, user, "", data), g');
      }
    case Welcome(user, target, epoch, data) =>
      if g'.log != g.log {
        LogAppended(g, LogRow(NextLogSeq(g.log), epoch, "welcome", user, target, data), g');
      }
    case _ =>
      LogFrame(g, t);
  }

  /** In every interleaving the i-th row of the log holds seq i, welcomes included; commits stand in
      strictly increasing epoch order, none beyond current_epoch; so neither the primary key nor the
      unique commit index can hold a clash. */
  lemma {:induction false} LogIsWellFormed(creator: UserId, ts: seq<Event>)
    ensures LogWf(Settled(NewGroup(creator), ts))
    decreases |ts|
  {
    if ts != [] {
      LogIsWellFormed(creator, ts[..|ts| - 1]);
      LogStep(Settled(NewGroup(creator), ts[..|ts| - 1]), ts[|ts| - 1]);
    }
  }

  /** Rows once in the log stay where they are, and the epoch never goes back. */
  lemma {:induction false} LogOnlyGrows(creator: UserId, ts: seq<Event>, k: nat)
    requires k <= |ts|
    ensures Settled(NewGroup(creator), ts[..k]).log <= Settled(NewGroup(creator), ts).log
    ensures Settled(NewGroup(creator), ts[..k]).epoch <= Settled(NewGroup(creator), ts).epoch
    decreases |ts|
  {
    if k == |ts| {
      assert ts[..k] == ts;
    } else {
      var front := ts[..|ts| - 1];
      assert front[..k] == ts[..k];
      LogOnlyGrows(creator, front, k);
      LogIsWellFormed(creator, front);
      LogStep(Settled(NewGroup(creator), front), ts[|ts| - 1]);
    }
  }

  /** On a reachable log the fork pre-check refuses nothing that the epoch checks would let pass: a
      commit is accepted exactly when it extends the current epoch, and its row then clashes with
      no key. The pre-check only decides which error is reported. */
  lemma AcceptedIffExtendsCurrent(g: Group, parent: int, epoch: int, kind: string, sender: UserId, data: string)
    requires LogWf(g)
    ensures var o := AppendCommit(g, parent, epoch, kind, sender, data);
            && (o.reply.AtSeq? <==> parent == g.epoch && epoch > g.epoch)
            && (o.reply.AtSeq? ==>
                  && o.g == g.(log := g.log + [LogRow(|g.log| + 1, epoch, kind, sender, "", data)], epoch := epoch)
                  && !HasCommitAt(g.log, epoch)
                  && forall i | 0 <= i < |g.log| :: g.log[i].number != o.reply.number)
            && (!o.reply.AtSeq? ==> o.g == g)
            && (o.reply == Refused(DuplicateCommitEpoch) <==> HasCommitAt(g.log, epoch))
            && (o.reply == Refused(EpochParentMismatch) <==> !HasCommitAt(g.log, epoch) && parent != g.epoch)
            && (o.reply == Refused(EpochNotMonotonic) <==>
                  !HasCommitAt(g.log, epoch) && parent == g.epoch && epoch <= g.epoch)
  {
    NextIsLengthPlusOne(g.log);
  }

  // ---------- the listing a member catches up from ----------

  /** The rows above the epoch that are not welcomes. */
  function Visible(log: seq<LogRow>, since: int): (rows: seq<LogRow>)
    ensures forall r | r in rows :: r in log && r.epoch > since && !r.IsWelcome()
  {
    if log == [] then [] else
      var last := log[|log| - 1];
      var rest := Visible(log[..|log| - 1], since);
      if last.epoch > since && !last.IsWelcome() then rest + [last] else rest
  }

  /** The order of a listing: by epoch, then by seq. */
  predicate Before(a: LogRow, b: LogRow) {
    a.epoch < b.epoch || (a.epoch == b.epoch && a.number < b.number)
  }

  ghost predicate Sorted(rows: seq<LogRow>) {
    forall i, j | 0 <= i < j < |rows| :: !Before(rows[j], rows[i])
  }

  ghost predicate IsListing(rows: seq<LogRow>, log: seq<LogRow>, since: int) {
    && Sorted(rows)
    && multiset(rows) == multiset(Visible(log, since))
  }

  ghost predicate EpochsRise(rows: seq<LogRow>) {
    forall i, j | 0 <= i < j < |rows| :: rows[i].epoch < rows[j].epoch
  }

  lemma RiseExtends(rows: seq<LogRow>, row: LogRow)
    requires EpochsRise(rows) && forall r | r in rows :: r.epoch < row.epoch
    ensures EpochsRise(rows + [row])
  {
    assert forall i | 0 <= i < |rows| :: rows[i] in rows;
  }

  lemma {:induction false} VisibleRises(log: seq<LogRow>, since: int)
    requires forall i, j | 0 <= i < j < |log| && !log[i].IsWelcome() && !log[j].IsWelcome() ::
               log[i].epoch < log[j].epoch
    ensures EpochsRise(Visible(log, since))
    decreases |log|
  {
    hide EpochsRise;
    if log == [] {
      NothingRises(log);
    } else {
      var front, last := log[..|log| - 1], log[|log| - 1];
      VisibleRises(front, since);
      if !last.IsWelcome() {
        forall r | r in Visible(front, since) ensures r.epoch < last.epoch {
          var i :| 0 <= i < |front| && front[i] == r;
          assert log[i] == r;
        }
        RiseExtends(Visible(front, since), last);
      }
    }
  }

  lemma NothingRises(rows: seq<LogRow>)
    requires rows == []
    ensures EpochsRise(rows)
  {}

  lemma FirstOfSorted(a: seq<LogRow>, b: seq<LogRow>)
    requires Sorted(a) && EpochsRise(b)
    requires multiset(a) == multiset(b) && b != []
    ensures a != [] && a[0] == b[0]
  {
    assert b[0] in multiset(a);
    assert a[0] in multiset(b);
    var i :| 0 <= i < |a| && a[i] == b[0];
    var j :| 0 <= j < |b| && b[j] == a[0];
    assert !Before(a[i], a[0]);
    assert j == 0;
  }

  lemma Tail(q: seq<LogRow>)
    requires q != []
    ensures q == [q[0]] + q[1..] && multiset(q[1..]) == multiset(q) - multiset{q[0]}
  {
    assert q == [q[0]] + q[1..];
  }

  lemma TailsInOrder(a: seq<LogRow>, b: seq<LogRow>)
    requires a != [] && b != [] && Sorted(a) && EpochsRise(b)
    ensures Sorted(a[1..]) && EpochsRise(b[1..])
  {}

  lemma {:induction false} SortedPermutationUnique(a: seq<LogRow>, b: seq<LogRow>)
    requires Sorted(a) && EpochsRise(b)
    requires multiset(a) == multiset(b)
    ensures a == b
    decreases |b|
  {
    hide Sorted, EpochsRise;
    if b == [] {
      assert |multiset(a)| == 0;
    } else {
      FirstOfSorted(a, b);
      Tail(a);
      Tail(b);
      TailsInOrder(a, b);
      SortedPermutationUnique(a[1..], b[1..]);
    }
  }

  /** On a reachable log, sorting changes nothing: the listing is the visible rows in log order. */
  lemma ListingIsLogOrder(g: Group, rows: seq<LogRow>, since: int)
    requires LogWf(g) && IsListing(rows, g.log, since)
    ensures rows == Visible(g.log, since)
  {
    VisibleRises(g.log, since);
    SortedPermutationUnique(rows, Visible(g.log, since));
  }

  // ---------- the commit chain ----------

  datatype Link = Link(parent: int, row: LogRow)

  /** The commits accepted during ts, in order, each with the parent epoch it named. */
  ghost function Chain(g: Group, ts: seq<Event>): seq<Link>
    decreases |ts|
  {
    if ts == [] then [] else
      Chain(g, ts[..|ts| - 1]) + LinkOf(Settled(g, ts[..|ts| - 1]), ts[|ts| - 1])
  }

  /** The epoch reached after the first p links. */
  ghost function EpochAfter(chain: seq<Link>, p: nat): int
    requires p <= |chain|
  {
    if p == 0 then 0 else chain[p - 1].row.epoch
  }

  /** Each link's parent is the epoch before it, and each link moves the epoch up. */
  ghost predicate Unbroken(chain: seq<Link>) {
    forall i | 0 <= i < |chain| ::
      chain[i].parent == EpochAfter(chain, i) && chain[i].row.epoch > EpochAfter(chain, i)
  }

  function Rows(chain: seq<Link>): (rows: seq<LogRow>)
    ensures |rows| == |chain|
    ensures forall i | 0 <= i < |chain| :: rows[i] == chain[i].row
  {
    seq(|chain|, i requires 0 <= i < |chain| => chain[i].row)
  }

  lemma RowsAppend(chain: seq<Link>, link: Link)
    ensures Rows(chain + [link]) == Rows(chain) + [link.row]
  {}

  lemma {:induction false} ChainEpochsRise(chain: seq<Link>, i: nat, j: nat)
    requires Unbroken(chain) && i <= j <= |chain|
    ensures EpochAfter(chain, i) <= EpochAfter(chain, j)
    ensures i < j ==> EpochAfter(chain, i) < EpochAfter(chain, j)
    decreases j - i
  {
    if i < j {
      ChainEpochsRise(chain, i, j - 1);
    }
  }

  lemma {:induction false} VisibleAppend(log: seq<LogRow>, row: LogRow, since: int)
    ensures Visible(log + [row], since) ==
            Visible(log, since) + (if row.epoch > since && !row.IsWelcome() then [row] else [])
  {
    assert (log + [row])[..|log|] == log;
  }

  /** In every interleaving the accepted commits form one unbroken chain from epoch 0 to
      current_epoch, and the log shows the commits that are not labelled 'welcome'. */
  lemma {:induction false} ChainIsUnbroken(creator: UserId, ts: seq<Event>, since: int)
    ensures var chain := Chain(NewGroup(creator), ts);
            var g := Settled(NewGroup(creator), ts);
            && Unbroken(chain)
            && EpochAfter(chain, |chain|) == g.epoch
            && Visible(g.log, since) == Visible(Rows(chain), since)
    decreases |ts|
  {
    if ts != [] {
      var g0 := NewGroup(creator);
      var front, t := ts[..|ts| - 1], ts[|ts| - 1];
      ChainIsUnbroken(creator, front, since);
      ChainStep(Settled(g0, front), t, Chain(g0, front), since);
    }
  }

  /** The link that t adds to the chain, if it is an accepted commit. */
  ghost function LinkOf(g: Group, t: Event): seq<Link> {
    var o := Act(g, t);
    if t.request.Commit? && o.reply.AtSeq? && o.g.log != []
    then [Link(t.request.parent, o.g.log[|o.g.log| - 1])]
    else []
  }

  lemma CommitAccepted(g: Group, t: Event)
    requires t.request.Commit? && Act(g, t).reply.AtSeq?
    ensures var r := t.request;
            var row := LogRow(NextLogSeq(g.log), r.epoch, r.kind, r.user, "", r.data);
            && Act(g, t).g.log == g.log + [row] && Act(g, t).g.epoch == row.epoch
            && LinkOf(g, t) == [Link(g.epoch, row)] && row.epoch > g.epoch
  {
    hide HasCommitAt, NextLogSeq;
  }

  lemma NothingCommitted(g: Group, t: Event)
    requires !(t.request.Commit? && Act(g, t).reply.AtSeq?)
    ensures LinkOf(g, t) == [] && Act(g, t).g.epoch == g.epoch
    ensures t.request.Commit? ==> Act(g, t).g.log == g.log
  {
    if t.request.Commit? {
      hide HasCommitAt, NextLogSeq;
    } else {
      hide Act;
      LogFootprint(g, t);
    }
  }

  lemma WelcomesAreInvisible(g: Group, t: Event, since: int)
    requires !(t.request.Commit? && Act(g, t).reply.AtSeq?)
    ensures Visible(Act(g, t).g.log, since) == Visible(g.log, since)
  {
    NothingCommitted(g, t);
    if !t.request.Commit? {
      LogFrame(g, t);
      hide Act, Visible;
      if row: LogRow :| row.IsWelcome() && Act(g, t).g.log == g.log + [row] {
        VisibleAppend(g.log, row, since);
      }
    }
  }

  lemma ChainStep(g: Group, t: Event, chain: seq<Link>, since: int)
    requires Unbroken(chain) && EpochAfter(chain, |chain|) == g.epoch
    requires Visible(g.log, since) == Visible(Rows(chain), since)
    ensures var more := chain + LinkOf(g, t);
            && Unbroken(more)
            && EpochAfter(more, |more|) == Act(g, t).g.epoch
            && Visible(Act(g, t).g.log, since) == Visible(Rows(more), since)
  {
    hide Act, Visible, Rows, Unbroken, EpochAfter, LinkOf;
    if t.request.Commit? && Act(g, t).reply.AtSeq? {
      CommitAccepted(g, t);
      var link := LinkOf(g, t)[0];
      VisibleAppend(g.log, link.row, since);
      ChainExtends(g, chain, link, since);
    } else {
      NothingCommitted(g, t);
      WelcomesAreInvisible(g, t, since);
      assert chain + [] == chain;
    }
  }

  lemma EpochAfterExtends(chain: seq<Link>, link: Link)
    ensures forall p | 0 <= p <= |chain| :: EpochAfter(chain + [link], p) == EpochAfter(chain, p)
    ensures EpochAfter(chain + [link], |chain| + 1) == link.row.epoch
  {}

  lemma UnbrokenExtends(chain: seq<Link>, link: Link)
    requires Unbroken(chain) && link.parent == EpochAfter(chain, |chain|) && link.row.epoch > link.parent
    ensures Unbroken(chain + [link])
    ensures EpochAfter(chain + [link], |chain| + 1) == link.row.epoch
  {
    EpochAfterExtends(chain, link);
    hide EpochAfter;
    var more := chain + [link];
    forall i | 0 <= i < |more|
      ensures more[i].parent == EpochAfter(more, i) && more[i].row.epoch > EpochAfter(more, i)
    {
      assert i < |chain| ==> more[i] == chain[i];
      assert EpochAfter(more, i) == EpochAfter(chain, i);
    }
  }

  lemma ChainExtends(g: Group, chain: seq<Link>, link: Link, since: int)
    requires Unbroken(chain) && EpochAfter(chain, |chain|) == g.epoch
    requires link.parent == g.epoch && link.row.epoch > g.epoch
    ensures Unbroken(chain + [link])
    ensures EpochAfter(chain + [link], |chain| + 1) == link.row.epoch
    ensures Visible(Rows(chain + [link]), since) ==
            Visible(Rows(chain), since) + (if link.row.epoch > since && !link.row.IsWelcome() then [link.row] else [])
  {
    hide Unbroken, EpochAfter, Visible, Rows;
    RowsAppend(chain, link);
    VisibleAppend(Rows(chain), link.row, since);
    UnbrokenExtends(chain, link);
  }

  /** In any interleaving at most one accepted commit names a given parent epoch. */
  lemma OneCommitPerParent(creator: UserId, ts: seq<Event>, i: nat, j: nat)
    requires i < |Chain(NewGroup(creator), ts)| && j < |Chain(NewGroup(creator), ts)|
    requires Chain(NewGroup(creator), ts)[i].parent == Chain(NewGroup(creator), ts)[j].parent
    ensures i == j
  {
    ChainIsUnbroken(creator, ts, 0);
    var chain := Chain(NewGroup(creator), ts);
    if i < j {
      ChainEpochsRise(chain, i, j);
    } else {
      ChainEpochsRise(chain, j, i);
    }
  }

  ghost predicate NoWelcomeLabel(chain: seq<Link>, p: nat) {
    forall i | p <= i < |chain| :: !chain[i].row.IsWelcome()
  }

  /** Listing since the epoch of position p: the rest of the chain, or strictly fewer rows. */
  ghost predicate PathIffUnlabelled(chain: seq<Link>, p: nat, since: int)
    requires p <= |chain|
  {
    var rows := Visible(Rows(chain), since);
    && (NoWelcomeLabel(chain, p) ==> rows == Rows(chain[p..]))
    && (!NoWelcomeLabel(chain, p) ==> |rows| < |chain| - p)
  }

  lemma {:induction false} VisibleOfChain(chain: seq<Link>, p: nat)
    requires Unbroken(chain) && p <= |chain|
    ensures PathIffUnlabelled(chain, p, EpochAfter(chain, p))
    decreases |chain|
  {
    if p == |chain| {
      NothingAbove(chain);
      PathAtEnd(chain);
    } else {
      var front, last := chain[..|chain| - 1], chain[|chain| - 1];
      assert chain == front + [last];
      UnbrokenFront(front, last);
      VisibleOfChain(front, p);
      PathExtends(front, last, p);
    }
  }

  lemma PathAtEnd(chain: seq<Link>)
    requires Visible(Rows(chain), EpochAfter(chain, |chain|)) == []
    ensures PathIffUnlabelled(chain, |chain|, EpochAfter(chain, |chain|))
  {
    assert chain[|chain|..] == [];
  }

  lemma UnbrokenFront(chain: seq<Link>, link: Link)
    requires Unbroken(chain + [link])
    ensures Unbroken(chain)
    ensures forall p | 0 <= p <= |chain| :: EpochAfter(chain + [link], p) == EpochAfter(chain, p)
  {
    EpochAfterExtends(chain, link);
    var more := chain + [link];
    forall i | 0 <= i < |chain|
      ensures chain[i].parent == EpochAfter(chain, i) && chain[i].row.epoch > EpochAfter(chain, i)
    {
      assert more[i] == chain[i] && EpochAfter(more, i) == EpochAfter(chain, i);
    }
  }

  lemma LastIsAbove(chain: seq<Link>, link: Link, p: nat)
    requires Unbroken(chain + [link]) && p <= |chain|
    ensures EpochAfter(chain + [link], p) == EpochAfter(chain, p)
    ensures link.row.epoch > EpochAfter(chain, p)
  {
    EpochAfterExtends(chain, link);
    ChainEpochsRise(chain + [link], p, |chain| + 1);
  }

  lemma RestExtends(chain: seq<Link>, link: Link, p: nat)
    requires p <= |chain|
    ensures Rows((chain + [link])[p..]) == Rows(chain[p..]) + [link.row]
  {
    assert (chain + [link])[p..] == chain[p..] + [link];
    RowsAppend(chain[p..], link);
  }

  lemma PathExtends(chain: seq<Link>, link: Link, p: nat)
    requires Unbroken(chain + [link])
    requires p <= |chain| && PathIffUnlabelled(chain, p, EpochAfter(chain, p))
    ensures PathIffUnlabelled(chain + [link], p, EpochAfter(chain + [link], p))
  {
    LastIsAbove(chain, link, p);
    RowsAppend(chain, link);
    VisibleAppend(Rows(chain), link.row, EpochAfter(chain, p));
    RestExtends(chain, link, p);
    LabelsExtend(chain, link, p);
  }

  lemma LabelsExtend(chain: seq<Link>, link: Link, p: nat)
    requires p <= |chain|
    ensures NoWelcomeLabel(chain + [link], p) <==> NoWelcomeLabel(chain, p) && !link.row.IsWelcome()
  {
    var more := chain + [link];
    assert more[|chain|] == link;
    assert forall i | 0 <= i < |chain| :: more[i] == chain[i];
    if NoWelcomeLabel(more, p) {
      forall i | p <= i < |chain| ensures !chain[i].row.IsWelcome() {
        assert more[i] == chain[i];
      }
    }
  }

  lemma NothingAbove(chain: seq<Link>)
    requires Unbroken(chain)
    ensures Visible(Rows(chain), EpochAfter(chain, |chain|)) == []
  {
    var rows := Visible(Rows(chain), EpochAfter(chain, |chain|));
    if rows != [] {
      assert rows[0] in rows;
      var i :| 0 <= i < |chain| && Rows(chain)[i] == rows[0];
      ChainEpochsRise(chain, i + 1, |chain|);
      assert false;
    }
  }

  /** A member at epoch e of the chain that lists the log since e receives the unbroken path from e
      to current_epoch exactly when no commit accepted after e carries the label 'welcome'; a
      commit that does is lost from the listing, which is then short. */
  lemma CatchUpIffNoWelcomeLabel(creator: UserId, ts: seq<Event>, p: nat, rows: seq<LogRow>)
    requires p <= |Chain(NewGroup(creator), ts)|
    requires IsListing(rows, Settled(NewGroup(creator), ts).log, EpochAfter(Chain(NewGroup(creator), ts), p))
    ensures var chain := Chain(NewGroup(creator), ts);
            && Unbroken(chain)
            && EpochAfter(chain, |chain|) == Settled(NewGroup(creator), ts).epoch
            && (rows == Rows(chain[p..]) <==> NoWelcomeLabel(chain, p))
            && (!NoWelcomeLabel(chain, p) ==> |rows| < |chain| - p)
  {
    var chain := Chain(NewGroup(creator), ts);
    var since := EpochAfter(chain, p);
    ChainIsUnbroken(creator, ts, since);
    LogIsWellFormed(creator, ts);
    ListingIsLogOrder(Settled(NewGroup(creator), ts), rows, since);
    VisibleOfChain(chain, p);
  }

  // ---------- a run that loses a commit ----------

  /** The owner submits one commit with kind 'welcome': the epoch is 1, yet a member at epoch 0
      lists nothing to catch up with. */
  lemma CommitLabelledWelcomeIsInvisible(creator: UserId, data: string)
    requires creator != "" && data != ""
    ensures var es := [Event(Commit(creator, 0, 1, "welcome", data), 0)];
            var g := Served(NewGroup(creator), es);
            g.epoch == 1 && |g.log| == 1 && Visible(g.log, 0) == []
  {
    var es := [Event(Commit(creator, 0, 1, "welcome", data), 0)];
    var g0 := NewGroup(creator);
    assert es[..0] == [];
    assert Served(g0, es[..0]) == g0;
    assert Handle(g0, es[0]) == AppendCommit(g0, 0, 1, "welcome", creator, data);
    var g := Served(g0, es);
    assert g.log == [LogRow(1, 1, "welcome", creator, "", data)];
    assert g.log[..0] == [];
    assert Visible(g.log[..0], 0) == [];
  }
}
