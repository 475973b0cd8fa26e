/** The background reclaimer: one page of active groups per tick, the offset carried between ticks. */
module CleanupSweep {
  import opened Ordered
  import opened GroupModel
  import opened GroupRequests
  import opened GroupStore

  const BATCH: nat := 100

  // ---------- one tick ----------

  /** A page shorter than the batch is the end of the list: the next tick starts over. */
  function NextOffset(offset: nat, visited: nat): nat {
    if visited < BATCH then 0 else offset + visited
  }

  /** after differs from before only in that the listed groups have been reclaimed. */
  ghost predicate Reclaimed(before: map<GroupId, Group>, ids: seq<GroupId>, after: map<GroupId, Group>) {
    && after.Keys == before.Keys
    && forall gid | gid in before ::
         after[gid] == if gid in ids then ReclaimMessages(before[gid]).g else before[gid]
  }

  lemma ReclaimedNext(before: map<GroupId, Group>, ids: seq<GroupId>, n: nat, mid: map<GroupId, Group>,
        after: map<GroupId, Group>)
    requires n < |ids| && Increasing(ids) && ids[n] in before
    requires Reclaimed(before, ids[..n], mid) && after == mid[ids[n] := ReclaimMessages(mid[ids[n]]).g]
    ensures Reclaimed(before, ids[..n + 1], after)
  {
    hide ReclaimMessages;
    assert ids[n] !in ids[..n];
    assert ids[..n + 1] == ids[..n] + [ids[n]];
  }

  lemma PageIsIncreasing(q: seq<nat>, offset: nat, limit: nat)
    requires Increasing(q)
    ensures Increasing(PageOf(q, offset, limit))
    ensures forall x | x in PageOf(q, offset, limit) :: x in q
    ensures |PageOf(q, offset, limit)| <= limit
  {}

  class Cleaner {
    const st: Store
    var offset: nat

    constructor (st: Store)
      ensures this.st == st && offset == 0
    {
      this.st := st;
      offset := 0;
    }

    /** One page: list it, reclaim its groups in turn. */
    method CleanPage(from: nat, limit: nat) returns (ids: seq<GroupId>)
      modifies st
      ensures ids == PageOf(Ascending(ActiveIds(old(st.groups))), from, limit)
      ensures Reclaimed(old(st.groups), ids, st.groups)
    {
      hide ReclaimMessages, Ascending, PageOf, Reclaimed;
      ids := st.ListActiveGroupIDsPage(limit, from);
      ghost var before := st.groups;
      PageIsIncreasing(Ascending(ActiveIds(before)), from, limit);
      NothingReclaimed(before);
      for n := 0 to |ids|
        invariant Reclaimed(before, ids[..n], st.groups)
      {
        ghost var mid := st.groups;
        assert ids[n] in ActiveIds(before);
        ReclaimedKeys(before, ids[..n], mid);
        var reply := st.ReclaimGroupMessages(ids[n]);
        ReclaimedNext(before, ids, n, mid, st.groups);
      }
      assert ids[..|ids|] == ids;
    }

    /** When the page cannot be listed the next tick starts over. */
    method Tick(listable: bool) returns (ids: seq<GroupId>)
      modifies this, st
      ensures listable ==>
                && ids == PageOf(Ascending(ActiveIds(old(st.groups))), old(offset), BATCH)
                && Reclaimed(old(st.groups), ids, st.groups)
                && offset == NextOffset(old(offset), |ids|)
      ensures !listable ==> ids == [] && st.groups == old(st.groups) && offset == 0
    {
      if !listable {
        offset := 0;
        return [];
      }
      ids := CleanPage(offset, BATCH);
      offset := if |ids| < BATCH then 0 else offset + |ids|;
    }
  }

  lemma NothingReclaimed(before: map<GroupId, Group>)
    ensures Reclaimed(before, [], before)
  {}

  lemma ReclaimedKeys(before: map<GroupId, Group>, ids: seq<GroupId>, after: map<GroupId, Group>)
    requires Reclaimed(before, ids, after)
    ensures after.Keys == before.Keys
  {}

  lemma ListedIsActive(groups: map<GroupId, Group>, from: nat, limit: nat, gid: GroupId)
    requires gid in PageOf(Ascending(ActiveIds(groups)), from, limit)
    ensures gid in groups && groups[gid].state == Active
  {
    hide Ascending;
    PageIsIncreasing(Ascending(ActiveIds(groups)), from, limit);
    assert gid in ActiveIds(groups);
  }

  /** What a page does to each group is what a served clean-up request does to it, or nothing; dissolved
      groups are never touched. */
  lemma PageServesCleanups(before: map<GroupId, Group>, from: nat, limit: nat, after: map<GroupId, Group>,
        gid: GroupId, now: int)
    requires gid in before && Reclaimed(before, PageOf(Ascending(ActiveIds(before)), from, limit), after)
    ensures after[gid] == before[gid] || after[gid] == Handle(before[gid], Event(Cleanup, now)).g
    ensures before[gid].state == Dissolved ==> after[gid] == before[gid]
  {
    hide Ascending, PageOf, ReclaimMessages;
    if gid in PageOf(Ascending(ActiveIds(before)), from, limit) {
      ListedIsActive(before, from, limit, gid);
    }
  }

  // ---------- a sweep ----------

  /** Tick n finds the active groups actives[n]; the first tick starts at offset 0. */
  ghost function OffsetAt(actives: seq<set<nat>>, n: nat): nat
    requires n <= |actives|
    decreases n, 0
  {
    if n == 0 then 0 else NextOffset(OffsetAt(actives, n - 1), |PageAt(actives, n - 1)|)
  }

  ghost function PageAt(actives: seq<set<nat>>, n: nat): seq<nat>
    requires n < |actives|
    decreases n, 1
  {
    PageOf(Ascending(actives[n]), OffsetAt(actives, n), BATCH)
  }

  /** The offset is back at 0 after the last tick, and not before. */
  ghost predicate IsSweep(actives: seq<set<nat>>) {
    && actives != []
    && OffsetAt(actives, |actives|) == 0
    && forall i | 0 < i < |actives| :: OffsetAt(actives, i) != 0
  }

  ghost function Visited(actives: seq<set<nat>>, n: nat): seq<nat>
    requires n <= |actives|
  {
    if n == 0 then [] else Visited(actives, n - 1) + PageAt(actives, n - 1)
  }

  // ---------- a fixed set of groups ----------

  function Repeated(s: set<nat>, n: nat): (actives: seq<set<nat>>)
    ensures |actives| == n && forall i | 0 <= i < n :: actives[i] == s
  {
    seq(n, i => s)
  }

  lemma FullPage(q: seq<nat>, k: nat)
    requires (k + 1) * BATCH <= |q|
    ensures PageOf(q, k * BATCH, BATCH) == q[k * BATCH..(k + 1) * BATCH]
    ensures q[..k * BATCH] + PageOf(q, k * BATCH, BATCH) == q[..(k + 1) * BATCH]
  {}

  lemma {:induction false} AfterFullPages(s: set<nat>, n: nat, k: nat)
    requires k <= n && k * BATCH <= |s|
    ensures OffsetAt(Repeated(s, n), k) == k * BATCH
    ensures Visited(Repeated(s, n), k) == Ascending(s)[..k * BATCH]
    decreases k
  {
    hide Ascending;
    if k > 0 {
      AfterFullPages(s, n, k - 1);
      FullPage(Ascending(s), k - 1);
    }
  }

  lemma LastPage(q: seq<nat>, k: nat)
    requires k * BATCH <= |q| < (k + 1) * BATCH
    ensures PageOf(q, k * BATCH, BATCH) == q[k * BATCH..]
    ensures q[..k * BATCH] + PageOf(q, k * BATCH, BATCH) == q
  {}

  /** For a fixed set of n active groups a sweep is exactly n / 100 + 1 ticks, and together they visit
      every group once, in id order. */
  lemma FixedSweepVisitsEachOnce(s: set<nat>, ticks: nat)
    ensures IsSweep(Repeated(s, ticks)) <==> ticks == |s| / 100 + 1
    ensures ticks == |s| / 100 + 1 ==> Visited(Repeated(s, ticks), ticks) == Ascending(s)
  {
    hide Ascending, PageOf, OffsetAt;
    var last := |s| / BATCH;
    if ticks > last {
      AfterLastPage(s, ticks);
      forall i | 0 < i <= last ensures OffsetAt(Repeated(s, ticks), i) != 0 {
        AfterFullPages(s, ticks, i);
      }
    } else if ticks > 0 {
      AfterFullPages(s, ticks, ticks);
    }
  }

  lemma AfterLastPage(s: set<nat>, ticks: nat)
    requires ticks > |s| / BATCH
    ensures OffsetAt(Repeated(s, ticks), |s| / BATCH + 1) == 0
    ensures Visited(Repeated(s, ticks), |s| / BATCH + 1) == Ascending(s)
  {
    hide Ascending, PageOf;
    AfterFullPages(s, ticks, |s| / BATCH);
    LastPage(Ascending(s), |s| / BATCH);
  }

  // ---------- a set that changes during the sweep ----------

  function Below(s: set<nat>, x: nat): set<nat> {
    set y | y in s && y < x
  }

  lemma HeadIsBelow(q: seq<nat>, i: nat, y: nat)
    requires Increasing(q) && i < |q|
    ensures y in q[..i] <==> y in q && y < q[i]
  {
    if y in q && y < q[i] {
      var j :| 0 <= j < |q| && q[j] == y;
      assert j < i;
      assert q[..i][j] == y;
    }
  }

  /** A group's position in the list is the number of active groups with a smaller id. */
  lemma PositionIsRank(s: set<nat>, i: nat)
    requires i < |s|
    ensures |Below(s, Ascending(s)[i])| == i
  {
    var q := Ascending(s);
    forall y ensures y in q[..i] <==> y in Below(s, q[i]) {
      HeadIsBelow(q, i, y);
    }
    AscendingUnique(q[..i], Below(s, q[i]));
  }

  lemma InPageIffRank(s: set<nat>, offset: nat, x: nat)
    requires x in s
    ensures x in PageOf(Ascending(s), offset, BATCH) <==> offset <= |Below(s, x)| < offset + BATCH
  {
    hide Ascending;
    var q := Ascending(s);
    assert x in q;
    var i :| 0 <= i < |q| && q[i] == x;
    PositionIsRank(s, i);
    AtPosition(q, i, offset);
  }

  lemma AtPosition(q: seq<nat>, i: nat, offset: nat)
    requires Increasing(q) && i < |q|
    ensures q[i] in PageOf(q, offset, BATCH) <==> offset <= i < offset + BATCH
  {
    var page := PageOf(q, offset, BATCH);
    if offset <= i < offset + BATCH {
      assert page[i - offset] == q[i];
    }
    if q[i] in page {
      var j :| 0 <= j < |page| && page[j] == q[i];
      assert page[j] == q[offset + j];
    }
  }

  lemma PageLength(q: seq<nat>, offset: nat)
    ensures |PageOf(q, offset, BATCH)| <= BATCH
    ensures |PageOf(q, offset, BATCH)| < BATCH ==> offset + BATCH > |q|
  {}

  /** x is active at every tick, and no group with a smaller id stops being active during the sweep. */
  ghost predicate Undisturbed(actives: seq<set<nat>>, x: nat) {
    && (forall i | 0 <= i < |actives| :: x in actives[i])
    && forall i, j | 0 <= i <= j < |actives| :: Below(actives[i], x) <= Below(actives[j], x)
  }

  lemma {:induction false} VisitedGrows(actives: seq<set<nat>>, m: nat, n: nat, x: nat)
    requires m < n <= |actives| && x in PageAt(actives, m)
    ensures x in Visited(actives, n)
    decreases n
  {
    hide Ascending, PageOf;
    if m < n - 1 {
      VisitedGrows(actives, m, n - 1, x);
    }
  }

  lemma {:induction false} UnvisitedIsAhead(actives: seq<set<nat>>, n: nat, x: nat)
    requires IsSweep(actives) && Undisturbed(actives, x) && n < |actives| && x !in Visited(actives, n)
    ensures |Below(actives[n], x)| >= OffsetAt(actives, n)
    decreases n
  {
    hide Ascending, PageOf;
    if n > 0 {
      UnvisitedIsAhead(actives, n - 1, x);
      InPageIffRank(actives[n - 1], OffsetAt(actives, n - 1), x);
      PageLength(Ascending(actives[n - 1]), OffsetAt(actives, n - 1));
      CardinalityOfSubset(Below(actives[n - 1], x), Below(actives[n], x));
    }
  }

  /** A completed sweep visits every group that is active throughout and below which no group goes
      away; so when groups are only added, none that was there at the start is skipped. */
  lemma UndisturbedIsVisited(actives: seq<set<nat>>, x: nat)
    requires IsSweep(actives) && Undisturbed(actives, x)
    ensures x in Visited(actives, |actives|)
  {
    hide Ascending, PageOf;
    var last := |actives| - 1;
    if x !in Visited(actives, last) {
      UnvisitedIsAhead(actives, last, x);
      InPageIffRank(actives[last], OffsetAt(actives, last), x);
      PageLength(Ascending(actives[last]), OffsetAt(actives, last));
      RankWithin(actives[last], x);
    }
  }

  lemma RankWithin(s: set<nat>, x: nat)
    requires x in s
    ensures |Below(s, x)| < |s|
  {
    assert Below(s, x) <= s - {x};
    CardinalityOfSubset(Below(s, x), s - {x});
  }

  ghost predicate OnlyAdded(actives: seq<set<nat>>) {
    forall i, j | 0 <= i <= j < |actives| :: actives[i] <= actives[j]
  }

  lemma GrowingSweepSkipsNobody(actives: seq<set<nat>>, x: nat)
    requires IsSweep(actives) && OnlyAdded(actives) && x in actives[0]
    ensures x in Visited(actives, |actives|)
  {
    assert forall i | 0 <= i < |actives| :: actives[0] <= actives[i];
    assert Undisturbed(actives, x);
    UndisturbedIsVisited(actives, x);
  }

  // ---------- exactly which groups a sweep misses ----------

  /** At tick n the number of active groups before x puts x on the page. */
  ghost predicate OnPage(actives: seq<set<nat>>, n: nat, x: nat)
    requires n < |actives|
  {
    OffsetAt(actives, n) <= |Below(actives[n], x)| < OffsetAt(actives, n) + BATCH
  }

  lemma {:induction false} VisitedIffOnPage(actives: seq<set<nat>>, n: nat, x: nat)
    requires n <= |actives| && forall i | 0 <= i < n :: x in actives[i]
    ensures x in Visited(actives, n) <==> exists i | 0 <= i < n :: OnPage(actives, i, x)
    decreases n
  {
    hide Ascending, PageOf, Below;
    if n > 0 {
      VisitedIffOnPage(actives, n - 1, x);
      InPageIffRank(actives[n - 1], OffsetAt(actives, n - 1), x);
      assert OnPage(actives, n - 1, x) <==> x in PageAt(actives, n - 1);
    }
  }

  /** Between ticks n and n + 1 so many groups before x went away that x, still ahead of the page, now
      stands before the offset. */
  ghost predicate Overtaken(actives: seq<set<nat>>, n: nat, x: nat)
    requires n + 1 < |actives|
  {
    |Below(actives[n], x)| >= OffsetAt(actives, n + 1) > |Below(actives[n + 1], x)|
  }

  lemma {:induction false} BehindWasOvertaken(actives: seq<set<nat>>, n: nat, x: nat)
    requires IsSweep(actives) && n < |actives|
    requires forall i | 0 <= i < n :: !OnPage(actives, i, x)
    requires |Below(actives[n], x)| < OffsetAt(actives, n)
    ensures exists i | 0 <= i < n :: Overtaken(actives, i, x)
    decreases n
  {
    hide Ascending, PageOf, Below;
    assert n > 0;
    PageLength(Ascending(actives[n - 1]), OffsetAt(actives, n - 1));
    assert OffsetAt(actives, n) == OffsetAt(actives, n - 1) + BATCH;
    assert !OnPage(actives, n - 1, x);
    if |Below(actives[n - 1], x)| < OffsetAt(actives, n - 1) {
      BehindWasOvertaken(actives, n - 1, x);
      var i :| 0 <= i < n - 1 && Overtaken(actives, i, x);
    } else {
      assert Overtaken(actives, n - 1, x);
    }
  }

  /** For any changes during a sweep: a group active throughout is missed exactly when no tick finds it
      on its page, and then it was overtaken: groups before it went away and pulled it behind the
      offset. */
  lemma MissedIffNeverOnPage(actives: seq<set<nat>>, x: nat)
    requires IsSweep(actives) && forall i | 0 <= i < |actives| :: x in actives[i]
    ensures x !in Visited(actives, |actives|) <==> forall i | 0 <= i < |actives| :: !OnPage(actives, i, x)
    ensures x !in Visited(actives, |actives|) ==> exists i | 0 <= i < |actives| - 1 :: Overtaken(actives, i, x)
  {
    hide Ascending, PageOf, Below, Visited, Overtaken;
    VisitedIffOnPage(actives, |actives|, x);
    if x !in Visited(actives, |actives|) {
      var last := |actives| - 1;
      PageLength(Ascending(actives[last]), OffsetAt(actives, last));
      RankWithin(actives[last], x);
      assert OffsetAt(actives, last + 1) == 0 && |PageAt(actives, last)| < BATCH;
      assert !OnPage(actives, last, x);
      BehindWasOvertaken(actives, last, x);
    }
  }

  /** One dissolution is enough: after a first page, one of its groups is dissolved; the group next in
      line then stands before the offset, and no later page of the sweep shows it. */
  lemma DissolutionSkipsTheNext(s: set<nat>, gone: nat, offset: nat)
    requires |s| > BATCH && gone in PageOf(Ascending(s), 0, BATCH) && offset >= BATCH
    ensures var next := Ascending(s)[BATCH];
            && next in s && next != gone
            && next !in PageOf(Ascending(s), 0, BATCH)
            && next !in PageOf(Ascending(s - {gone}), offset, BATCH)
  {
    hide Ascending, PageOf;
    var q := Ascending(s);
    var next := q[BATCH];
    FirstPageIsBefore(q, gone);
    PositionIsRank(s, BATCH);
    OneLessBelow(s, gone, next);
    InPageIffRank(s - {gone}, offset, next);
  }

  lemma FirstPageIsBefore(q: seq<nat>, x: nat)
    requires Increasing(q) && |q| > BATCH && x in PageOf(q, 0, BATCH)
    ensures x in q && x < q[BATCH] && q[BATCH] in q && q[BATCH] !in PageOf(q, 0, BATCH)
  {
    assert PageOf(q, 0, BATCH) == q[..BATCH];
  }

  lemma OneLessBelow(s: set<nat>, gone: nat, x: nat)
    requires gone in s && gone < x
    ensures |Below(s - {gone}, x)| == |Below(s, x)| - 1
  {
    assert Below(s - {gone}, x) == Below(s, x) - {gone};
  }
}
