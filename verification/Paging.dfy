/** A member reading the queue page by page, resuming from the last seq received. */
module Paging {
  import opened Ordered
  import opened GroupModel
  import opened GroupRequests
  import opened GroupRuns
  import opened MessageQueue
  import opened Numbering

  const DEFAULT_PAGE := 200
  const MAX_PAGE := 500

  function PageLimit(limit: int): (n: nat)
    ensures 1 <= n <= 500
    ensures 1 <= limit <= 500 ==> n == limit
    ensures limit > 500 ==> n == 500
    ensures limit <= 0 ==> n == 200
  {
    if limit <= 0 then DEFAULT_PAGE else if limit > MAX_PAGE then MAX_PAGE else limit
  }

  /** Rows below the floor are gone, so a listing never starts below it. */
  function From(minSeq: nat, since: int): nat {
    if since < minSeq then minSeq else since
  }

  /** The n least seqs above since, ascending. */
  ghost function Listed(keys: set<nat>, since: nat, n: nat): seq<nat> {
    var rows := Ascending(Above(keys, since));
    if |rows| <= n then rows else rows[..n]
  }

  /** The seqs of one answer: the floor minSeq was read first, with the group's row, the messages g has
      now in a later query. */
  ghost function PageFrom(minSeq: nat, g: Group, since: int, limit: int): seq<nat> {
    Listed(g.queue.Keys, From(minSeq, since), PageLimit(limit))
  }

  /** The answer when nothing happens between the two reads. */
  ghost function Page(g: Group, since: int, limit: int): seq<nat> {
    PageFrom(g.minSeq, g, since, limit)
  }

  lemma ListedIsPrefix(keys: set<nat>, since: nat, n: nat)
    requires n >= 1
    ensures var page, rows := Listed(keys, since, n), Ascending(Above(keys, since));
            && page <= rows && |page| <= n && Increasing(page)
            && (page == [] <==> Above(keys, since) == {})
            && (page != [] ==> Last(page) in Above(keys, since))
  {
    var page, rows := Listed(keys, since, n), Ascending(Above(keys, since));
    if rows == [] {
      assert page == [];
    } else {
      assert |page| >= 1;
      assert Last(page) == rows[|page| - 1];
      assert rows[|page| - 1] in rows;
    }
  }

  lemma RestOfListing(keys: set<nat>, since: nat, page: seq<nat>)
    requires page <= Ascending(Above(keys, since)) && page != [] && Last(page) >= since
    ensures Ascending(Above(keys, since)) == page + Ascending(Above(keys, Last(page)))
    ensures |Above(keys, Last(page))| < |Above(keys, since)|
  {
    hide Ascending;
    var s := Above(keys, since);
    AscendingCut(s, |page| - 1);
    assert Ascending(s)[..|page|] == page;
    AboveTwice(keys, since, Last(page));
  }

  lemma AboveTwice(keys: set<nat>, since: nat, c: nat)
    requires since <= c
    ensures Above(Above(keys, since), c) == Above(keys, c)
  {}

  /** Listing n rows takes the least n above since, and the rest starts where they end. */
  lemma ListedSplits(keys: set<nat>, since: nat, n: nat)
    requires n >= 1
    ensures var page := Listed(keys, since, n);
            && |page| <= n && Increasing(page)
            && (page == [] <==> Above(keys, since) == {})
            && (page != [] ==>
                  && Last(page) > since
                  && Ascending(Above(keys, since)) == page + Ascending(Above(keys, Last(page)))
                  && |Above(keys, Last(page))| < |Above(keys, since)|
                  && forall k | since < k <= Last(page) && k in keys :: k in page)
  {
    var page := Listed(keys, since, n);
    ListedIsPrefix(keys, since, n);
    if page != [] {
      RestOfListing(keys, since, page);
      forall k | since < k <= Last(page) && k in keys ensures k in page {
        assert k in Ascending(Above(keys, since));
        assert k !in Ascending(Above(keys, Last(page)));
      }
    }
  }

  // ---------- a queue that stands still ----------

  lemma PageShrinks(g: Group, since: int, limit: int)
    ensures var page := Page(g, since, limit);
            page != [] ==>
              |Above(g.queue.Keys, From(g.minSeq, Last(page)))| < |Above(g.queue.Keys, From(g.minSeq, since))|
  {
    hide Listed;
    ListedSplits(g.queue.Keys, From(g.minSeq, since), PageLimit(limit));
  }

  /** All pages a member receives from since until an empty one, asking for limits(0), limits(1), ... */
  ghost function Drained(g: Group, since: int, limits: nat -> int, n: nat): seq<nat>
    decreases |Above(g.queue.Keys, From(g.minSeq, since))|
  {
    PageShrinks(g, since, limits(n));
    var page := Page(g, since, limits(n));
    if page == [] then [] else page + Drained(g, Last(page), limits, n + 1)
  }

  /** On a fixed queue paging ends, and whatever limits are asked for the pages together are every
      retained message above max(since, min_seq), each once, in order. */
  lemma {:induction false} DrainingReceivesEverythingOnce(g: Group, since: int, limits: nat -> int, n: nat)
    ensures Drained(g, since, limits, n) == Ascending(Above(g.queue.Keys, From(g.minSeq, since)))
    decreases |Above(g.queue.Keys, From(g.minSeq, since))|
  {
    hide Listed, Ascending;
    var from := From(g.minSeq, since);
    var page := Page(g, since, limits(n));
    ListedSplits(g.queue.Keys, from, PageLimit(limits(n)));
    if page == [] {
      assert Ascending(Above(g.queue.Keys, from)) == [];
    } else {
      DrainingReceivesEverythingOnce(g, Last(page), limits, n + 1);
    }
  }

  // ---------- a queue that moves between pages, and between the reads of one page ----------

  /** One page: the floor its handler read, and the group when it then read the messages. */
  datatype Ask = Ask(minSeq: nat, g: Group)

  /** What has been received after the pages asks, one after another. */
  ghost function Received(asks: seq<Ask>, since: nat, limits: nat -> int): seq<nat>
    decreases |asks|
  {
    if asks == [] then [] else
      var before, ask := Received(asks[..|asks| - 1], since, limits), asks[|asks| - 1];
      before + PageFrom(ask.minSeq, ask.g, Resume(before, since), limits(|asks| - 1))
  }

  function Resume(received: seq<nat>, since: nat): nat {
    if received == [] then since else Last(received)
  }

  ghost predicate InOrderAbove(received: seq<nat>, since: nat) {
    Increasing(received) && forall i | 0 <= i < |received| :: received[i] > since
  }

  /** k was received, or lay at or below the floor when the messages of one of the pages were read. */
  ghost predicate ReceivedOrTruncated(asks: seq<Ask>, received: seq<nat>, k: nat) {
    k in received || exists i :: 0 <= i < |asks| && k <= asks[i].g.minSeq
  }

  lemma PageIsAbove(minSeq: nat, g: Group, since: int, limit: int)
    ensures Increasing(PageFrom(minSeq, g, since, limit))
    ensures forall x | x in PageFrom(minSeq, g, since, limit) :: x > since && x > minSeq && x in g.queue
  {
    var from := From(minSeq, since);
    ListedSplits(g.queue.Keys, from, PageLimit(limit));
    var rows := Ascending(Above(g.queue.Keys, from));
    forall x | x in PageFrom(minSeq, g, since, limit) ensures x in Above(g.queue.Keys, from) {
      assert x in rows;
    }
  }

  /** Between the floor and its last row a page leaves out only what is not queued. */
  lemma PageLeavesOutNothing(minSeq: nat, g: Group, since: int, limit: int, k: nat)
    requires var page := PageFrom(minSeq, g, since, limit);
             page != [] && From(minSeq, since) < k <= Last(page) && k in g.queue
    ensures k in PageFrom(minSeq, g, since, limit)
  {
    ListedSplits(g.queue.Keys, From(minSeq, since), PageLimit(limit));
  }

  lemma TightPage(minSeq: nat, g: Group, m: nat, since: nat, limit: int, k: nat)
    requires Numbered(g, m) && minSeq <= g.minSeq && since < k
    requires PageFrom(minSeq, g, since, limit) != [] && k <= Last(PageFrom(minSeq, g, since, limit))
    ensures k in PageFrom(minSeq, g, since, limit) || k <= g.minSeq
  {
    hide PageFrom;
    var page := PageFrom(minSeq, g, since, limit);
    PageIsAbove(minSeq, g, since, limit);
    assert Last(page) in page;
    if k > g.minSeq {
      TidyBetween(g.queue.Keys, g.minSeq, m, Last(page), k);
      PageLeavesOutNothing(minSeq, g, since, limit, k);
    }
  }

  lemma TidyBetween(keys: set<nat>, floor: nat, m: nat, top: nat, k: nat)
    requires Tidy(keys, floor, m) && top in keys && floor < k <= top
    ensures k in keys
  {
    assert MinOf(keys) <= k;
  }

  /** When does the min_seq that comes with a page cover everything the page passes over? Exactly when
      the floor has not risen, between the two reads, beyond where the page starts. */
  lemma ReportedFloorCoversIff(minSeq: nat, g: Group, m: nat, since: nat, limit: int)
    requires Numbered(g, m) && minSeq <= g.minSeq && PageFrom(minSeq, g, since, limit) != []
    ensures var page := PageFrom(minSeq, g, since, limit);
            (forall k | since < k <= Last(page) && k !in page :: k <= minSeq) <==> g.minSeq <= From(minSeq, since)
  {
    hide PageFrom;
    var page := PageFrom(minSeq, g, since, limit);
    PageIsAbove(minSeq, g, since, limit);
    assert Last(page) in page;
    if g.minSeq <= From(minSeq, since) {
      forall k | since < k <= Last(page) && k !in page ensures k <= minSeq {
        TightPage(minSeq, g, m, since, limit, k);
      }
    } else {
      assert MinOf(g.queue.Keys) <= Last(page);
      assert since < g.minSeq <= Last(page) && g.minSeq !in page by { AtFloorNotQueued(g, m); }
    }
  }

  lemma AtFloorNotQueued(g: Group, m: nat)
    requires Numbered(g, m)
    ensures g.minSeq !in g.queue
  {}

  lemma AppendInOrder(before: seq<nat>, page: seq<nat>, since: nat)
    requires InOrderAbove(before, since) && Increasing(page)
    requires forall x | x in page :: x > Resume(before, since)
    ensures InOrderAbove(before + page, since)
  {
    assert forall i | 0 <= i < |before| :: before[i] <= Last(before);
    assert forall i | 0 <= i < |page| :: page[i] in page;
  }

  /** Whatever happens between the pages and between their reads, the seqs received rise strictly. */
  lemma {:induction false} PagesStayAscending(asks: seq<Ask>, since: nat, limits: nat -> int)
    ensures InOrderAbove(Received(asks, since, limits), since)
    decreases |asks|
  {
    hide PageFrom, InOrderAbove;
    if asks == [] {
      NothingInOrder(since);
    } else {
      var front, ask := asks[..|asks| - 1], asks[|asks| - 1];
      PagesStayAscending(front, since, limits);
      var before := Received(front, since, limits);
      PageIsAbove(ask.minSeq, ask.g, Resume(before, since), limits(|asks| - 1));
      AppendInOrder(before, PageFrom(ask.minSeq, ask.g, Resume(before, since), limits(|asks| - 1)), since);
    }
  }

  lemma NothingInOrder(since: nat)
    ensures InOrderAbove([], since)
  {}

  lemma StillTruncated(front: seq<Ask>, ask: Ask, before: seq<nat>, page: seq<nat>, k: nat)
    requires ReceivedOrTruncated(front, before, k)
    ensures ReceivedOrTruncated(front + [ask], before + page, k)
  {
    if i :| 0 <= i < |front| && k <= front[i].g.minSeq {
      assert (front + [ask])[i] == front[i];
    }
  }

  lemma ShownNow(front: seq<Ask>, ask: Ask, before: seq<nat>, page: seq<nat>, k: nat)
    requires k in page || k <= ask.g.minSeq
    ensures ReceivedOrTruncated(front + [ask], before + page, k)
  {
    assert (front + [ask])[|front|] == ask;
  }

  /** The floor a page starts from is no higher than the floor when its messages are read. */
  ghost predicate FloorReadFirst(ask: Ask, m: nat) {
    Numbered(ask.g, m) && ask.minSeq <= ask.g.minSeq
  }

  lemma {:induction false} PagesSkipOnlyTruncated(asks: seq<Ask>, ms: seq<nat>, since: nat, limits: nat -> int, k: nat)
    requires |ms| == |asks| && forall i | 0 <= i < |asks| :: FloorReadFirst(asks[i], ms[i])
    requires since < k <= Resume(Received(asks, since, limits), since)
    ensures ReceivedOrTruncated(asks, Received(asks, since, limits), k)
    decreases |asks|
  {
    hide PageFrom, Numbered, ReceivedOrTruncated;
    if asks != [] {
      var front, ask := asks[..|asks| - 1], asks[|asks| - 1];
      var before := Received(front, since, limits);
      var page := PageFrom(ask.minSeq, ask.g, Resume(before, since), limits(|asks| - 1));
      assert asks == front + [ask];
      assert Received(asks, since, limits) == before + page;
      if k <= Resume(before, since) {
        PagesSkipOnlyTruncated(front, ms[..|asks| - 1], since, limits, k);
        StillTruncated(front, ask, before, page, k);
      } else {
        assert page != [];
        assert FloorReadFirst(asks[|asks| - 1], ms[|asks| - 1]);
        TightPage(ask.minSeq, ask.g, ms[|asks| - 1], Resume(before, since), limits(|asks| - 1), k);
        ShownNow(front, ask, before, page, k);
      }
    }
  }

  // ---------- pages during a run ----------

  lemma {:induction false} FloorRises(g: Group, ts: seq<Event>, f: nat, r: nat)
    requires f <= r <= |ts|
    ensures Settled(g, ts[..f]).minSeq <= Settled(g, ts[..r]).minSeq
    decreases r
  {
    hide Act, Settled;
    if f < r {
      FloorRises(g, ts, f, r - 1);
      StatesChain(g, ts, r - 1);
      DropStep(Settled(g, ts[..r - 1]), ts[r - 1]);
    }
  }

  /** The moments of a run at which a page's floor and its messages are read. */
  datatype Cut = Cut(floorAt: nat, rowsAt: nat)

  ghost predicate CutsOf(ts: seq<Event>, cuts: seq<Cut>) {
    forall i | 0 <= i < |cuts| :: cuts[i].floorAt <= cuts[i].rowsAt <= |ts|
  }

  ghost function Asks(g: Group, ts: seq<Event>, cuts: seq<Cut>): (asks: seq<Ask>)
    requires CutsOf(ts, cuts)
    ensures |asks| == |cuts|
    ensures forall i | 0 <= i < |cuts| ::
              asks[i] == Ask(Settled(g, ts[..cuts[i].floorAt]).minSeq, Settled(g, ts[..cuts[i].rowsAt]))
  {
    seq(|cuts|, i requires 0 <= i < |cuts| =>
      Ask(Settled(g, ts[..cuts[i].floorAt]).minSeq, Settled(g, ts[..cuts[i].rowsAt])))
  }

  lemma AskIsFloorFirst(creator: UserId, ts: seq<Event>, cut: Cut)
    requires Interleaving(NewGroup(creator), ts) && NoRestart(NewGroup(creator), ts)
    requires cut.floorAt <= cut.rowsAt <= |ts|
    ensures var g0 := NewGroup(creator);
            FloorReadFirst(Ask(Settled(g0, ts[..cut.floorAt]).minSeq, Settled(g0, ts[..cut.rowsAt])),
                           Last(Issued(g0, ts[..cut.rowsAt])))
  {
    hide Interleaving, NoRestart, Settled, Issued, Numbered;
    FloorRises(NewGroup(creator), ts, cut.floorAt, cut.rowsAt);
    Prefixes(NewGroup(creator), ts, cut.rowsAt);
    NumberingWithoutRestart(creator, ts[..cut.rowsAt]);
  }

  /** Paging while the group is used: in every interleaving in which no message is appended to an
      emptied queue, pages whose floors and messages are read at any moments give a strictly ascending
      list, and a seq passed over on the way lay at or below the min_seq of one of the moments at which
      messages were read. */
  lemma PagingAcrossARun(creator: UserId, ts: seq<Event>, cuts: seq<Cut>, since: nat, limits: nat -> int, k: nat)
    requires Interleaving(NewGroup(creator), ts) && NoRestart(NewGroup(creator), ts)
    requires CutsOf(ts, cuts)
    ensures var asks := Asks(NewGroup(creator), ts, cuts);
            var received := Received(asks, since, limits);
            && InOrderAbove(received, since)
            && (since < k <= Resume(received, since) ==> ReceivedOrTruncated(asks, received, k))
  {
    hide FloorReadFirst, Interleaving, NoRestart, InOrderAbove, ReceivedOrTruncated, Received;
    var g0 := NewGroup(creator);
    var asks := Asks(g0, ts, cuts);
    PagesStayAscending(asks, since, limits);
    var ms := seq(|cuts|, i requires 0 <= i < |cuts| && CutsOf(ts, cuts) => Last(Issued(g0, ts[..cuts[i].rowsAt])));
    forall i | 0 <= i < |cuts| ensures FloorReadFirst(asks[i], ms[i]) {
      AskIsFloorFirst(creator, ts, cuts[i]);
    }
    if since < k <= Resume(Received(asks, since, limits), since) {
      PagesSkipOnlyTruncated(asks, ms, since, limits, k);
    }
  }

  // ---------- what a restart costs ----------

  /** From the moment the floor has reached k, no page whose floor is read from then on shows k. */
  lemma NothingUnderTheFloorIsListed(g: Group, ts: seq<Event>, f: nat, rows: Group, since: int, limit: int, k: nat)
    requires f <= |ts| && k <= g.minSeq
    ensures k !in PageFrom(Settled(g, ts[..f]).minSeq, rows, since, limit)
  {
    hide PageFrom;
    StatesChain(g, ts, 0);
    FloorRises(g, ts, 0, f);
    PageIsAbove(Settled(g, ts[..f]).minSeq, rows, since, limit);
  }

  /** A message appended to an emptied queue is accepted under seq 1; no page asked for from then on, at
      any later moment of any run, ever shows it. */
  lemma RestartedMessageIsNeverListed(g: Group, row: MessageRow, ts: seq<Event>, cut: Cut, since: int, limit: int)
    requires Emptied(g) && cut.floorAt <= cut.rowsAt <= |ts|
    ensures var o := AppendMessage(g, row);
            && o.reply == AtSeq(1) && 1 in o.g.queue && o.g.queue[1] == row
            && 1 !in PageFrom(Settled(o.g, ts[..cut.floorAt]).minSeq, Settled(o.g, ts[..cut.rowsAt]), since, limit)
  {
    hide PageFrom, Settled;
    assert g.queue == map[];
    var after := AppendMessage(g, row).g;
    NothingUnderTheFloorIsListed(after, ts, cut.floorAt, Settled(after, ts[..cut.rowsAt]), since, limit, 1);
  }

  /** Only a page whose floor was read before the queue was ever truncated, and which asks from the
      start, can still show it. */
  lemma RestartedMessageListedIff(g: Group, row: MessageRow, minSeq: nat, since: int, limit: int)
    requires Emptied(g)
    ensures 1 in PageFrom(minSeq, AppendMessage(g, row).g, since, limit) <==> minSeq == 0 && since <= 0
  {
    assert g.queue == map[];
    var after := AppendMessage(g, row).g;
    assert after.queue.Keys == {1};
    hide PageFrom, AppendMessage;
    PageIsAbove(minSeq, after, since, limit);
    if minSeq == 0 && since <= 0 {
      OnlyOneListed(after, since, limit);
    }
  }

  lemma OnlyOneListed(g: Group, since: int, limit: int)
    requires g.queue.Keys == {1} && since <= 0
    ensures PageFrom(0, g, since, limit) == [1]
  {
    assert Above({1}, 0) == {1};
    AscendingUnique([1], {1});
  }

  // ---------- a page whose floor is out of date ----------

  lemma SendServed(g: Group, user: UserId, msgId: string, body: string, now: int)
    requires g.state == Active && user in g.members && g.members[user].joinedEpoch <= g.epoch
    requires user != "" && msgId != "" && body != ""
    ensures Handle(g, Event(Send(user, g.epoch, msgId, body), now)).g ==
            AppendMessage(g, MessageRow(g.epoch, user, msgId, body)).g
  {
    hide AppendMessage;
  }

  lemma AckServed(g: Group, user: UserId, now: int)
    requires g.state == Active && user in g.members && user !in g.cursors && user != "" && 1 in g.queue.Keys
    ensures Handle(g, Event(Ack(user, 1), now)).g == g.(cursors := g.cursors[user := 1])
  {}

  lemma TwoSent(owner: UserId)
    requires owner != ""
    ensures var g := NewGroup(owner);
            var g1 := Handle(g, Event(Send(owner, 0, "a", "x"), 0)).g;
            var g2 := Handle(g1, Event(Send(owner, 0, "b", "y"), 0)).g;
            var g3 := Handle(g2, Event(Ack(owner, 1), 0)).g;
            g3 == g.(queue := map[1 := MessageRow(0, owner, "a", "x"), 2 := MessageRow(0, owner, "b", "y")],
                     cursors := map[owner := 1])
  {
    hide Handle, AppendMessage;
    var g := NewGroup(owner);
    AppendToOne(g, MessageRow(0, owner, "a", "x"), MessageRow(0, owner, "b", "y"));
    SendServed(g, owner, "a", "x", 0);
    var g1 := Handle(g, Event(Send(owner, 0, "a", "x"), 0)).g;
    SendServed(g1, owner, "b", "y", 0);
    AckServed(Handle(g1, Event(Send(owner, 0, "b", "y"), 0)).g, owner, 0);
  }

  lemma FirstOfTwoDropped(g: Group)
    requires g.queue.Keys == {1, 2} && AckedByAll(g) == 1 && g.minSeq == 0
    ensures ReclaimMessages(g).g.queue.Keys == {2} && ReclaimMessages(g).g.minSeq == 1
  {
    assert Above({1, 2}, 1) == {2};
    assert Unacked(g) == {2};
    NewestOfFew(Unacked(g), QUEUE_MAX);
  }

  /** The owner sends two messages and acknowledges the first; a page from the start reads the floor, a
      pass drops message 1, the page reads the messages: it shows seq 2 only and reports min_seq 0. */
  lemma StaleFloorHidesAGap(owner: UserId, limit: int)
    requires owner != ""
    ensures var es := [Event(Send(owner, 0, "a", "x"), 0), Event(Send(owner, 0, "b", "y"), 0),
                       Event(Ack(owner, 1), 0), Event(Cleanup, 0)];
            var floor := Served(NewGroup(owner), es[..3]).minSeq;
            && floor == 0
            && PageFrom(floor, Served(NewGroup(owner), es), 0, limit) == [2]
  {
    hide Handle, Served, PageFrom, ReclaimMessages;
    var es := [Event(Send(owner, 0, "a", "x"), 0), Event(Send(owner, 0, "b", "y"), 0),
               Event(Ack(owner, 1), 0), Event(Cleanup, 0)];
    var g := NewGroup(owner);
    TwoSent(owner);
    FourServedStates(g, es);
    var g3 := Served(g, es[..3]);
    OneMemberAcked(g3, owner);
    FirstOfTwoDropped(g3);
    CleanupServed(g3, es[3]);
    OnlySecondListed(Served(g, es), limit);
  }

  lemma CleanupServed(g: Group, e: Event)
    requires g.state == Active && e.request.Cleanup?
    ensures Handle(g, e).g == ReclaimMessages(g).g
  {
    hide ReclaimMessages;
  }

  lemma OneMemberAcked(g: Group, u: UserId)
    requires g.members.Keys == {u} && g.cursors == map[u := 1]
    ensures AckedByAll(g) == 1
  {
    AllAcked(g, 1);
  }

  lemma OnlySecondListed(g: Group, limit: int)
    requires g.queue.Keys == {2}
    ensures PageFrom(0, g, 0, limit) == [2]
  {
    assert Above({2}, 0) == {2};
    AscendingUnique([2], {2});
  }

  lemma FourServedStates(g: Group, es: seq<Event>)
    requires |es| == 4
    ensures var g3 := Handle(Handle(Handle(g, es[0]).g, es[1]).g, es[2]).g;
            Served(g, es[..3]) == g3 && Served(g, es) == Handle(g3, es[3]).g
  {
    hide Handle, Served;
    ServedNothing(g, es[..0]);
    ServedStep(g, es, 0);
    ServedStep(g, es, 1);
    ServedStep(g, es, 2);
    ServedStep(g, es, 3);
    assert es[..4] == es;
  }
}
