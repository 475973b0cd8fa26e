/** A member who reads page by page and acknowledges no more than it has received, while everybody
    else goes on using the group: does it ever miss a message? */
module Reader {
  import opened Ordered
  import opened GroupModel
  import opened GroupRequests
  import opened GroupRuns
  import opened Retention
  import opened Numbering
  import opened Paging

  /** A transaction of anybody, or one of the two reads behind a page of the member. */
  datatype Action = Tx(e: Event) | ReadFloor | ReadRows(limit: int)

  datatype Floor = NotRead | Known(minSeq: nat)

  /** floor is that of the page under way, received what the member has got so far. */
  datatype Reading = Reading(g: Group, floor: Floor, received: seq<nat>)

  ghost function Do(r: Reading, since: nat, a: Action): Reading {
    match a
    case Tx(e) => r.(g := Act(r.g, e).g)
    case ReadFloor => r.(floor := Known(r.g.minSeq))
    case ReadRows(limit) =>
      if r.floor.NotRead? then r
      else Reading(r.g, NotRead, r.received + PageFrom(r.floor.minSeq, r.g, Resume(r.received, since), limit))
  }

  ghost function Run(r: Reading, since: nat, actions: seq<Action>): Reading
    decreases |actions|
  {
    if actions == [] then r else
      Do(Run(r, since, actions[..|actions| - 1]), since, actions[|actions| - 1])
  }

  /** The transactions among the actions. */
  function Txs(actions: seq<Action>): seq<Event> {
    if actions == [] then [] else
      var last := actions[|actions| - 1];
      Txs(actions[..|actions| - 1]) + if last.Tx? then [last.e] else []
  }

  /** u stays a member and acknowledges only what it has received, and no pass finds more than 10000
      messages unacknowledged. */
  ghost predicate Careful(r: Reading, since: nat, u: UserId, a: Action) {
    a.Tx? ==>
      && u in Act(r.g, a.e).g.members
      && (a.e.request.Ack? && a.e.request.user == u ==> a.e.request.lastSeq <= Resume(r.received, since))
      && (a.e.request.Cleanup? ==> |Unacked(r.g)| <= QUEUE_MAX)
  }

  ghost predicate CarefulRun(r: Reading, since: nat, u: UserId, actions: seq<Action>)
    decreases |actions|
  {
    actions == [] ||
    (CarefulRun(r, since, u, actions[..|actions| - 1]) &&
     Careful(Run(r, since, actions[..|actions| - 1]), since, u, actions[|actions| - 1]))
  }

  /** since + 1, since + 2, ... without a gap. */
  predicate Consecutive(q: seq<nat>, since: nat) {
    forall i | 0 <= i < |q| :: q[i] == since + 1 + i
  }

  /** last is the last seq issued; neither u's cursor nor a floor is ahead of what u has received. */
  ghost predicate InStep(r: Reading, last: nat, since: nat, u: UserId) {
    && Numbered(r.g, last)
    && u in r.g.members && CursorOf(r.g, u) <= Resume(r.received, since)
    && r.g.minSeq <= Resume(r.received, since) <= last
    && (r.floor.Known? ==> r.floor.minSeq <= Resume(r.received, since))
    && Consecutive(r.received, since)
  }

  // ---------- a page continues where the last one ended ----------

  function Interval(a: nat, b: nat): (q: seq<nat>)
    requires a <= b
    ensures |q| == b - a && Consecutive(q, a)
  {
    seq(b - a, i requires 0 <= i < b - a => a + 1 + i)
  }

  lemma AscendingInterval(s: set<nat>, a: nat, b: nat)
    requires a <= b && forall k :: k in s <==> a < k <= b
    ensures Ascending(s) == Interval(a, b)
  {
    var q := Interval(a, b);
    forall x ensures x in q <==> x in s {
      if x in s {
        assert q[x - a - 1] == x;
      }
    }
    AscendingUnique(q, s);
  }

  lemma TidyAbove(keys: set<nat>, floor: nat, m: nat, from: nat)
    requires Tidy(keys, floor, m) && floor <= from <= m
    ensures forall k :: k in Above(keys, from) <==> from < k <= m
  {
    forall k | from < k <= m ensures k in keys {
      assert keys != {};
      assert MinOf(keys) <= k <= MaxOf(keys);
    }
  }

  /** Whatever floor the page read, as long as that and the present one are no higher than from. */
  lemma PageContinues(minSeq: nat, g: Group, m: nat, from: nat, limit: int)
    requires Tidy(g.queue.Keys, g.minSeq, m) && g.minSeq <= from <= m && minSeq <= from
    ensures var page := PageFrom(minSeq, g, from, limit);
            Consecutive(page, from) && from + |page| <= m && (page == [] <==> from == m)
  {
    hide Ascending, Tidy;
    TidyAbove(g.queue.Keys, g.minSeq, m, from);
    AscendingInterval(Above(g.queue.Keys, from), from, m);
  }

  lemma ConsecutiveAppend(q: seq<nat>, page: seq<nat>, since: nat)
    requires Consecutive(q, since) && Consecutive(page, Resume(q, since))
    ensures Consecutive(q + page, since) && Resume(q, since) == since + |q|
    ensures Resume(q + page, since) == since + |q| + |page|
  {}

  // ---------- one action ----------

  lemma ReadStep(r: Reading, last: nat, since: nat, u: UserId, a: Action)
    requires InStep(r, last, since, u) && !a.Tx?
    ensures InStep(Do(r, since, a), last, since, u)
  {
    hide PageFrom;
    var from := Resume(r.received, since);
    if a.ReadRows? && r.floor.Known? {
      PageContinues(r.floor.minSeq, r.g, last, from, a.limit);
      ConsecutiveAppend(r.received, PageFrom(r.floor.minSeq, r.g, from, a.limit), since);
    }
  }

  lemma CursorStaysBehind(r: Reading, last: nat, since: nat, u: UserId, e: Event)
    requires InStep(r, last, since, u) && Careful(r, since, u, Tx(e))
    ensures CursorOf(Act(r.g, e).g, u) <= Resume(r.received, since)
  {
    hide Numbered, Consecutive;
    MemberFootprint(r.g, e);
  }

  lemma FloorStaysBehind(r: Reading, last: nat, since: nat, u: UserId, e: Event)
    requires InStep(r, last, since, u) && Careful(r, since, u, Tx(e))
    ensures Act(r.g, e).g.minSeq <= Resume(r.received, since)
  {
    hide Numbered, Consecutive;
    if e.request.Cleanup? {
      NewestOfFew(Unacked(r.g), QUEUE_MAX);
      AckedByAllBound(r.g, u);
    } else {
      QueueFootprint(r.g, e);
    }
  }

  lemma AckedByAllBound(g: Group, u: UserId)
    requires u in g.members
    ensures AckedByAll(g) == 0 || AckedByAll(g) <= CursorOf(g, u)
  {}

  lemma TxStep(r: Reading, last: nat, since: nat, u: UserId, e: Event, more: nat)
    requires InStep(r, last, since, u) && Careful(r, since, u, Tx(e))
    requires last <= more && Numbered(Act(r.g, e).g, more)
    ensures InStep(Do(r, since, Tx(e)), more, since, u)
  {
    CursorStaysBehind(r, last, since, u, e);
    FloorStaysBehind(r, last, since, u, e);
    hide Act, Numbered, Consecutive, CursorOf;
  }

  // ---------- whole runs ----------

  /** Before the first page: u is a member whose cursor, like the floor, is not ahead of since. */
  ghost predicate MayStart(g: Group, last: nat, since: nat, u: UserId) {
    u in g.members && CursorOf(g, u) <= since && g.minSeq <= since <= last
  }

  ghost function LastIssued(creator: UserId, ts: seq<Event>): nat {
    Last(Issued(NewGroup(creator), ts))
  }

  /** A member may start at any moment of any interleaving without a restart, from any position that its
      cursor and the floor have not passed. */
  lemma MayStartAnywhere(creator: UserId, ts: seq<Event>, u: UserId, since: nat)
    requires Interleaving(NewGroup(creator), ts) && NoRestart(NewGroup(creator), ts)
    requires MayStart(Settled(NewGroup(creator), ts), LastIssued(creator, ts), since, u)
    ensures InStep(Reading(Settled(NewGroup(creator), ts), NotRead, []), LastIssued(creator, ts), since, u)
  {
    NumberingWithoutRestart(creator, ts);
  }

  /** One more transaction of an interleaving without a restart. */
  lemma NextNumbered(creator: UserId, front: seq<Event>, e: Event)
    requires Interleaving(NewGroup(creator), front + [e]) && NoRestart(NewGroup(creator), front + [e])
    ensures Interleaving(NewGroup(creator), front) && NoRestart(NewGroup(creator), front)
    ensures LastIssued(creator, front) <= LastIssued(creator, front + [e])
    ensures Settled(NewGroup(creator), front + [e]) == Act(Settled(NewGroup(creator), front), e).g
    ensures Numbered(Settled(NewGroup(creator), front + [e]), LastIssued(creator, front + [e]))
  {
    hide Act, Numbered, Issued, Interleaving, NoRestart;
    var ts := front + [e];
    assert ts[..|front|] == front;
    Prefixes(NewGroup(creator), ts, |front|);
    NumberingWithoutRestart(creator, ts);
    IncreasingPrefix(Issued(NewGroup(creator), front), Issued(NewGroup(creator), ts));
    OneMore(NewGroup(creator), front, e);
  }

  lemma {:induction false} CarefulReaderInStep(creator: UserId, ts: seq<Event>, since: nat, u: UserId,
        actions: seq<Action>)
    requires Interleaving(NewGroup(creator), ts + Txs(actions)) && NoRestart(NewGroup(creator), ts + Txs(actions))
    requires MayStart(Settled(NewGroup(creator), ts), LastIssued(creator, ts), since, u)
    requires CarefulRun(Reading(Settled(NewGroup(creator), ts), NotRead, []), since, u, actions)
    ensures var after := Run(Reading(Settled(NewGroup(creator), ts), NotRead, []), since, actions);
            && after.g == Settled(NewGroup(creator), ts + Txs(actions))
            && InStep(after, LastIssued(creator, ts + Txs(actions)), since, u)
    decreases |actions|
  {
    hide Act, Interleaving, NoRestart, Settled, LastIssued, InStep, MayStart, Careful;
    if actions == [] {
      assert ts + Txs(actions) == ts;
      MayStartAnywhere(creator, ts, u, since);
    } else {
      var front, a := actions[..|actions| - 1], actions[|actions| - 1];
      var r := Run(Reading(Settled(NewGroup(creator), ts), NotRead, []), since, front);
      if a.Tx? {
        assert ts + Txs(actions) == ts + Txs(front) + [a.e];
        NextNumbered(creator, ts + Txs(front), a.e);
        CarefulReaderInStep(creator, ts, since, u, front);
        TxStep(r, LastIssued(creator, ts + Txs(front)), since, u, a.e, LastIssued(creator, ts + Txs(actions)));
      } else {
        assert Txs(actions) == Txs(front);
        CarefulReaderInStep(creator, ts, since, u, front);
        ReadStep(r, LastIssued(creator, ts + Txs(front)), since, u, a);
      }
    }
  }

  /** In every interleaving in which no message is appended to an emptied queue, a member who stays,
      acknowledges only what it has received, and is not overrun by the cap, receives since + 1,
      since + 2, ... with no gap, no repetition and in order, however the transactions of others fall
      between its pages and between the two reads of each page; and a page with nothing between its
      reads comes back empty exactly when it has received everything issued so far. */
  lemma CarefulReaderMissesNothing(creator: UserId, ts: seq<Event>, since: nat, u: UserId, actions: seq<Action>,
        limit: int)
    requires Interleaving(NewGroup(creator), ts + Txs(actions)) && NoRestart(NewGroup(creator), ts + Txs(actions))
    requires MayStart(Settled(NewGroup(creator), ts), LastIssued(creator, ts), since, u)
    requires CarefulRun(Reading(Settled(NewGroup(creator), ts), NotRead, []), since, u, actions)
    ensures var after := Run(Reading(Settled(NewGroup(creator), ts), NotRead, []), since, actions);
            var last := LastIssued(creator, ts + Txs(actions));
            && after.g == Settled(NewGroup(creator), ts + Txs(actions))
            && Consecutive(after.received, since) && since + |after.received| <= last
            && (Page(after.g, Resume(after.received, since), limit) == [] <==> since + |after.received| == last)
  {
    hide Act, Interleaving, NoRestart, Settled, LastIssued, MayStart, CarefulRun, Run, PageFrom, Numbered;
    CarefulReaderInStep(creator, ts, since, u, actions);
    var after := Run(Reading(Settled(NewGroup(creator), ts), NotRead, []), since, actions);
    EmptyPageMeansUpToDate(after, LastIssued(creator, ts + Txs(actions)), since, u, limit);
  }

  lemma EmptyPageMeansUpToDate(r: Reading, last: nat, since: nat, u: UserId, limit: int)
    requires InStep(r, last, since, u)
    ensures since + |r.received| <= last
    ensures Page(r.g, Resume(r.received, since), limit) == [] <==> since + |r.received| == last
  {
    hide PageFrom;
    PageContinues(r.g.minSeq, r.g, last, Resume(r.received, since), limit);
    ConsecutiveAppend(r.received, [], since);
  }
}
