/** The members' acknowledgements over whole runs: whose cursors there are, how they move, and what an
    acknowledgement recorded after its check went stale does to them. */
module Cursors {
  import opened GroupModel
  import opened GroupRequests
  import opened GroupRuns
  import opened Numbering

  // ---------- whose cursors there are ----------

  ghost predicate CursorsOfMembers(g: Group) {
    g.cursors.Keys <= g.members.Keys
  }

  /** An acknowledgement recorded for somebody who is not, or no longer, a member. */
  predicate AcksLate(g: Group, e: Event) {
    e.request.Ack? && e.request.user !in g.members
  }

  /** A transaction, however old its check, leaves a cursor without a member exactly when it is such an
      acknowledgement. */
  lemma CursorStep(g: Group, e: Event)
    requires CursorsOfMembers(g)
    ensures CursorsOfMembers(Act(g, e).g) <==> !AcksLate(g, e)
  {
    hide AppendCommit, AppendMessage, CreateTransfer, ReclaimMessages, NewestPending, NextLogSeq;
    MemberFootprint(g, e);
    match e.request
    case Ack(user, _) => assert user in Act(g, e).g.cursors;
    case _ =>
  }

  lemma ServedAckIsAMembers(g: Group, e: Event)
    ensures Guard(g, e.request).Proceed? ==> !AcksLate(g, e)
  {
    hide Act;
  }

  lemma CursorsAtCreation(creator: UserId)
    ensures CursorsOfMembers(NewGroup(creator))
  {}

  /** With atomic handlers only current members have a cursor. */
  lemma {:induction false} CursorsBelongToMembers(creator: UserId, es: seq<Event>)
    ensures CursorsOfMembers(Served(NewGroup(creator), es))
    decreases |es|
  {
    hide Act, Guard, CursorsOfMembers, AcksLate;
    if es == [] {
      CursorsAtCreation(creator);
    } else {
      var g, e := Served(NewGroup(creator), es[..|es| - 1]), es[|es| - 1];
      CursorsBelongToMembers(creator, es[..|es| - 1]);
      ServedAckIsAMembers(g, e);
      CursorStep(g, e);
    }
  }

  /** In every interleaving: only members have cursors, at every moment, exactly when no acknowledgement
      is recorded after its member has gone. */
  lemma CursorsBelongIffNoLateAck(creator: UserId, ts: seq<Event>)
    ensures var gs := States(NewGroup(creator), ts);
            Throughout(gs, CursorsOfMembers) <==> Never(gs, ts, AcksLate)
  {
    hide Act, CursorsOfMembers, AcksLate, Throughout, Never;
    var gs := States(NewGroup(creator), ts);
    CursorsAtCreation(creator);
    StatesChain(NewGroup(creator), ts, 0);
    forall k | 0 <= k < |ts| ensures BreaksAt(gs, ts, CursorsOfMembers, AcksLate, k) {
      StatesChain(NewGroup(creator), ts, k);
      if CursorsOfMembers(gs[k]) {
        CursorStep(gs[k], ts[k]);
      }
    }
    ThroughoutIffNever(gs, ts, CursorsOfMembers, AcksLate);
  }

  // ---------- how cursors move ----------

  /** While u stays a member the cursor never moves back; a user who is not a member before or
      after the step stands at 0 after it. */
  ghost predicate CursorMoved(g: Group, g': Group, u: UserId) {
    if u in g.members && u in g'.members then CursorOf(g, u) <= CursorOf(g', u) else CursorOf(g', u) == 0
  }

  ghost predicate AllMoved(g: Group, g': Group) {
    forall u :: CursorMoved(g, g', u)
  }

  /** Whoever is not a member stands at 0. */
  ghost predicate NoStray(g: Group) {
    forall u | u !in g.members :: CursorOf(g, u) == 0
  }

  /** A positive acknowledgement recorded for somebody who is not, or no longer, a member. */
  predicate Strays(g: Group, e: Event) {
    e.request.Ack? && e.request.lastSeq > 0 && e.request.user !in g.members
  }

  lemma CursorAfterAck(g: Group, e: Event, u: UserId)
    requires e.request.Ack?
    ensures CursorOf(Act(g, e).g, u) ==
            if u != e.request.user then CursorOf(g, u)
            else if u in g.cursors && g.cursors[u] >= e.request.lastSeq then g.cursors[u]
            else e.request.lastSeq
    ensures Act(g, e).g.members == g.members
  {}

  lemma WithoutOne(g: Group, gone: UserId, u: UserId)
    ensures CursorOf(Without(g, gone), u) == if u == gone then 0 else CursorOf(g, u)
    ensures u in Without(g, gone).members <==> u in g.members && u != gone
  {}

  /** Leaving and being removed take the cursor with the membership, and touch nobody else's. */
  lemma DepartureTakesCursor(g: Group, e: Event)
    requires e.request.Leave? || e.request.Kick?
    ensures var g', gone := Act(g, e).g, Without(g, if e.request.Leave? then e.request.user else e.request.target);
            g' == g || (g'.members == gone.members && g'.cursors == gone.cursors)
  {
    hide CursorOf;
  }

  lemma WelcomeAddsOne(g: Group, e: Event)
    requires e.request.Welcome?
    ensures Act(g, e).g.cursors == g.cursors
    ensures var before, after := g.members.Keys, Act(g, e).g.members.Keys;
            after == before || after == before + {e.request.target}
  {
    hide NextLogSeq;
  }

  lemma DecisionMovesNobody(g: Group, e: Event)
    requires e.request.Decide?
    ensures Act(g, e).g.cursors == g.cursors && Act(g, e).g.members.Keys == g.members.Keys
  {
    hide NewestPending, HasOwner;
  }

  /** No other transaction ends a membership or touches a cursor, and only a welcome begins one. */
  lemma OthersKeepCursors(g: Group, e: Event)
    requires !WritesCursors(e.request)
    ensures Act(g, e).g.cursors == g.cursors
    ensures var before, after := g.members.Keys, Act(g, e).g.members.Keys;
            after == before || (e.request.Welcome? && after == before + {e.request.target})
  {
    hide Act;
    MemberFootprint(g, e);
    match e.request
    case Welcome(_, _, _, _) => WelcomeAddsOne(g, e);
    case Decide(_, _) => DecisionMovesNobody(g, e);
    case _ =>
  }

  /** Apart from acknowledgements a cursor is kept or goes with its membership. */
  lemma CursorAfterOther(g: Group, e: Event, u: UserId)
    requires !e.request.Ack?
    ensures CursorOf(Act(g, e).g, u) == CursorOf(g, u) || CursorOf(Act(g, e).g, u) == 0
    ensures u in Act(g, e).g.members ==> CursorOf(Act(g, e).g, u) == CursorOf(g, u)
    ensures u in g.members && u !in Act(g, e).g.members ==> CursorOf(Act(g, e).g, u) == 0
    ensures u !in g.members && u in Act(g, e).g.members ==> e.request.Welcome? && e.request.target == u
  {
    hide Act;
    if WritesCursors(e.request) {
      DepartureTakesCursor(g, e);
      WithoutOne(g, if e.request.Leave? then e.request.user else e.request.target, u);
      hide Without;
    } else {
      OthersKeepCursors(g, e);
      assert u in Act(g, e).g.members <==> u in Act(g, e).g.members.Keys;
    }
  }

  /** A transaction, however old its check, leaves a stray cursor exactly when it is such an
      acknowledgement. */
  lemma StrayStep(g: Group, e: Event)
    requires NoStray(g) && WellFormed(e.request)
    ensures NoStray(Act(g, e).g) <==> !Strays(g, e)
  {
    var g' := Act(g, e).g;
    hide Act;
    forall u | u !in g'.members && !Strays(g, e) ensures CursorOf(g', u) == 0 {
      if e.request.Ack? { CursorAfterAck(g, e, u); } else { CursorAfterOther(g, e, u); }
    }
    if Strays(g, e) {
      CursorAfterAck(g, e, e.request.user);
    }
  }

  lemma MovedStep(g: Group, e: Event, u: UserId)
    requires NoStray(g) && WellFormed(e.request) && !Strays(g, e)
    ensures CursorMoved(g, Act(g, e).g, u)
  {
    hide Act;
    if e.request.Ack? { CursorAfterAck(g, e, u); } else { CursorAfterOther(g, e, u); }
  }

  lemma AllMovedStep(g: Group, e: Event)
    requires NoStray(g) && WellFormed(e.request) && !Strays(g, e)
    ensures AllMoved(g, Act(g, e).g)
  {
    hide Act, NoStray, WellFormed, Strays, CursorMoved;
    forall u ensures CursorMoved(g, Act(g, e).g, u) {
      MovedStep(g, e, u);
    }
  }

  lemma StraysBreak(g: Group, e: Event)
    requires Strays(g, e)
    ensures !AllMoved(g, Act(g, e).g)
  {
    CursorAfterAck(g, e, e.request.user);
    assert !CursorMoved(g, Act(g, e).g, e.request.user);
  }

  lemma NoStrayAtCreation(creator: UserId)
    ensures NoStray(NewGroup(creator))
  {}

  /** In every interleaving: whoever is not a member stands at 0, at every moment, exactly when no
      positive acknowledgement is recorded for a non-member. */
  lemma NoStrayIffNoStrayAck(creator: UserId, ts: seq<Event>)
    requires Interleaving(NewGroup(creator), ts)
    ensures var gs := States(NewGroup(creator), ts);
            Throughout(gs, NoStray) <==> Never(gs, ts, Strays)
  {
    hide Act, NoStray, Strays, Throughout, Never, Interleaving;
    var gs := States(NewGroup(creator), ts);
    InterleavingIsWellFormed(NewGroup(creator), ts);
    NoStrayAtCreation(creator);
    StatesChain(NewGroup(creator), ts, 0);
    forall k | 0 <= k < |ts| ensures BreaksAt(gs, ts, NoStray, Strays, k) {
      StatesChain(NewGroup(creator), ts, k);
      assert ts[k] in ts;
      if NoStray(gs[k]) {
        StrayStep(gs[k], ts[k]);
      }
    }
    ThroughoutIffNever(gs, ts, NoStray, Strays);
  }

  /** In every interleaving: at every step a cursor moves forward within a membership and stands at 0
      outside one and on joining, for every user, exactly when no positive acknowledgement is recorded
      for a non-member. */
  lemma CursorsMoveForwardIffNoStrayAck(creator: UserId, ts: seq<Event>)
    requires Interleaving(NewGroup(creator), ts)
    ensures var gs := States(NewGroup(creator), ts);
            (forall k: nat | k < |ts| :: AllMoved(gs[k], gs[k + 1])) <==> Never(gs, ts, Strays)
  {
    hide Act, NoStray, Strays, AllMoved, Interleaving;
    var g0 := NewGroup(creator);
    var gs := States(g0, ts);
    InterleavingIsWellFormed(g0, ts);
    NoStrayIffNoStrayAck(creator, ts);
    if Never(gs, ts, Strays) {
      forall k: nat | k < |ts| ensures AllMoved(gs[k], gs[k + 1]) {
        StatesChain(g0, ts, k);
        assert NoStray(gs[k]) && !Strays(gs[k], ts[k]) && ts[k] in ts;
        AllMovedStep(gs[k], ts[k]);
      }
    } else {
      var k: nat :| k < |ts| && Strays(gs[k], ts[k]);
      StatesChain(g0, ts, k);
      StraysBreak(gs[k], ts[k]);
    }
  }

  lemma MembersCursorsDoNotStray(g: Group)
    requires CursorsOfMembers(g)
    ensures NoStray(g)
  {}

  /** A served acknowledgement is a member's. */
  lemma ServedAckDoesNotStray(g: Group, e: Event)
    ensures Guard(g, e.request).Proceed? ==> WellFormed(e.request) && !Strays(g, e)
  {
    hide Act;
  }

  lemma StandsStill(g: Group, u: UserId)
    requires NoStray(g)
    ensures CursorMoved(g, g, u)
  {}

  /** Over any run of atomic handlers a cursor never moves back during one membership, and leaving,
      being removed and joining again all reset it to 0. */
  lemma CursorMonotoneWithinMembership(creator: UserId, es: seq<Event>, e: Event, u: UserId)
    ensures CursorMoved(Served(NewGroup(creator), es), Served(NewGroup(creator), es + [e]), u)
  {
    hide Act, Guard, CursorMoved, CursorsOfMembers, NoStray, Strays, WellFormed;
    assert (es + [e])[..|es|] == es;
    var g := Served(NewGroup(creator), es);
    CursorsBelongToMembers(creator, es);
    MembersCursorsDoNotStray(g);
    ServedAckDoesNotStray(g, e);
    if Guard(g, e.request).Proceed? {
      MovedStep(g, e, u);
    } else {
      StandsStill(g, u);
    }
  }

  lemma {:induction false} ServedNeverStrays(creator: UserId, es: seq<Event>)
    ensures var g0, ts := NewGroup(creator), Passed(NewGroup(creator), es);
            Never(States(g0, ts), ts, Strays)
    decreases |es|
  {
    hide Act, Guard, Strays;
    if es != [] {
      var g0 := NewGroup(creator);
      var front, e := es[..|es| - 1], es[|es| - 1];
      ServedNeverStrays(creator, front);
      ServedIsAnInterleaving(g0, front);
      ServedAckDoesNotStray(Served(g0, front), e);
      if Guard(Served(g0, front), e.request).Proceed? {
        NeverMore(g0, Passed(g0, front), e, Strays);
      }
    }
  }

  // ---------- what a member's cursor means ----------

  /** A new member finds a cursor waiting that is not 0. */
  predicate Inherits(g: Group, e: Event) {
    && e.request.Welcome? && e.request.target !in g.members && |g.members| < MEMBERS_MAX
    && CursorOf(g, e.request.target) != 0
  }

  /** At step k the member u acknowledged up to n, and it has been a member ever since. */
  ghost predicate AckedSince(g: Group, ts: seq<Event>, k: nat, u: UserId, n: int) {
    && k < |ts| && ts[k].request == Ack(u, n)
    && forall j | k <= j <= |ts| :: u in Settled(g, ts[..j]).members
  }

  /** c is the highest seq u has acknowledged during its present membership, 0 if there is none. */
  ghost predicate IsHighestAck(g: Group, ts: seq<Event>, u: UserId, c: int) {
    && c >= 0
    && (c == 0 || exists k: nat :: AckedSince(g, ts, k, u, c))
    && forall k: nat, n | AckedSince(g, ts, k, u, n) :: n <= c
  }

  lemma AckedStill(g: Group, front: seq<Event>, t: Event, k: nat, u: UserId, n: int)
    requires u in Settled(g, front + [t]).members
    ensures k < |front| ==> (AckedSince(g, front + [t], k, u, n) <==> AckedSince(g, front, k, u, n))
    ensures AckedSince(g, front + [t], |front|, u, n) <==> t.request == Ack(u, n) && u in Settled(g, front).members
  {
    hide Settled;
    var ts := front + [t];
    assert ts[..|front|] == front && ts[..|ts|] == ts && front[..|front|] == front;
    assert forall j | 0 <= j <= |front| :: ts[..j] == front[..j];
  }

  lemma AckedInRange(g: Group, ts: seq<Event>, k: nat, u: UserId, n: int)
    requires AckedSince(g, ts, k, u, n)
    ensures k < |ts| && u in Settled(g, ts).members && (k < |ts| - 1 ==> u in Settled(g, ts[..|ts| - 1]).members)
  {
    hide Settled;
    assert ts[..|ts|] == ts;
  }

  lemma HighestExtends(g: Group, front: seq<Event>, t: Event, u: UserId, c: int)
    requires u in Settled(g, front).members && u in Settled(g, front + [t]).members && IsHighestAck(g, front, u, c)
    ensures IsHighestAck(g, front + [t], u,
                         if t.request.Ack? && t.request.user == u && c < t.request.lastSeq
                         then t.request.lastSeq else c)
  {
    hide Settled, AckedSince;
    var ts := front + [t];
    forall k: nat, n | AckedSince(g, ts, k, u, n)
      ensures k <= |front| && (k < |front| ==> AckedSince(g, front, k, u, n))
    {
      AckedInRange(g, ts, k, u, n);
      AckedStill(g, front, t, k, u, n);
    }
    forall n ensures AckedSince(g, ts, |front|, u, n) <==> t.request == Ack(u, n) {
      AckedStill(g, front, t, 0, u, n);
    }
    if k: nat :| AckedSince(g, front, k, u, c) {
      AckedInRange(g, front, k, u, c);
      AckedStill(g, front, t, k, u, c);
    }
  }

  /** Nobody has acknowledged anything during a membership that begins now. */
  lemma NoAckBeforeJoining(g: Group, front: seq<Event>, t: Event, u: UserId, k: nat, n: int)
    requires u !in Settled(g, front).members && u in Settled(g, front + [t]).members
    ensures !AckedSince(g, front + [t], k, u, n)
  {
    assert (front + [t])[..|front|] == front;
  }

  lemma HighestAtJoin(g: Group, front: seq<Event>, t: Event, u: UserId, c: int)
    requires u !in Settled(g, front).members && u in Settled(g, front + [t]).members
    ensures IsHighestAck(g, front + [t], u, c) <==> c == 0
  {
    hide Settled, AckedSince;
    forall k: nat, n ensures !AckedSince(g, front + [t], k, u, n) {
      NoAckBeforeJoining(g, front, t, u, k, n);
    }
  }

  lemma {:induction false} CursorsAreNotNegative(g: Group, ts: seq<Event>, u: UserId)
    requires AllWellFormed(ts) && CursorOf(g, u) >= 0
    ensures CursorOf(Settled(g, ts), u) >= 0
    decreases |ts|
  {
    hide Act, CursorOf;
    if ts != [] {
      var front, t := ts[..|ts| - 1], ts[|ts| - 1];
      CursorsAreNotNegative(g, front, u);
      assert t in ts;
      if t.request.Ack? { CursorAfterAck(Settled(g, front), t, u); CursorIsKnown(Settled(g, front), u); }
      else { CursorAfterOther(Settled(g, front), t, u); }
    }
  }

  lemma CursorIsKnown(g: Group, u: UserId)
    ensures CursorOf(g, u) == if u in g.cursors then g.cursors[u] else 0
  {}

  /** The cursor of a member who stays. */
  lemma MemberStep(g: Group, e: Event, u: UserId)
    requires u in g.members && u in Act(g, e).g.members && CursorOf(g, u) >= 0 && WellFormed(e.request)
    ensures CursorOf(Act(g, e).g, u) ==
            if e.request.Ack? && e.request.user == u && CursorOf(g, u) < e.request.lastSeq then e.request.lastSeq
            else CursorOf(g, u)
  {
    hide Act;
    if e.request.Ack? { CursorAfterAck(g, e, u); } else { CursorAfterOther(g, e, u); }
  }

  /** The cursor of somebody who joins. */
  lemma JoinStep(g: Group, e: Event, u: UserId)
    requires u !in g.members && u in Act(g, e).g.members
    ensures CursorOf(Act(g, e).g, u) == CursorOf(g, u) && e.request.Welcome? && e.request.target == u
    ensures Inherits(g, e) <==> CursorOf(g, u) != 0
  {
    hide CursorOf;
    if e.request.Ack? { CursorAfterAck(g, e, u); } else { CursorAfterOther(g, e, u); }
    hide NextLogSeq;
  }

  lemma {:induction false} HighestWhileNobodyInherits(creator: UserId, ts: seq<Event>, u: UserId)
    requires AllWellFormed(ts) && Never(States(NewGroup(creator), ts), ts, Inherits)
    requires u in Settled(NewGroup(creator), ts).members
    ensures IsHighestAck(NewGroup(creator), ts, u, CursorOf(Settled(NewGroup(creator), ts), u))
    decreases |ts|
  {
    hide Act, IsHighestAck, Inherits, CursorOf, WellFormed;
    var g0 := NewGroup(creator);
    if ts == [] {
      HighestAtFirst(g0, u);
    } else {
      var front, t := ts[..|ts| - 1], ts[|ts| - 1];
      assert ts == front + [t] && t in ts;
      NeverMore(g0, front, t, Inherits);
      HighestAtFirst(g0, u);
      CursorsAreNotNegative(g0, front, u);
      if u in Settled(g0, front).members {
        HighestWhileNobodyInherits(creator, front, u);
        MemberStep(Settled(g0, front), t, u);
        HighestExtends(g0, front, t, u, CursorOf(Settled(g0, front), u));
      } else {
        JoinStep(Settled(g0, front), t, u);
        HighestAtJoin(g0, front, t, u, CursorOf(Settled(g0, ts), u));
      }
    }
  }

  lemma HighestAtFirst(g: Group, u: UserId)
    requires g.cursors == map[]
    ensures CursorOf(g, u) == 0 && IsHighestAck(g, [], u, CursorOf(g, u))
  {}

  /** Each member's cursor is its highest acknowledgement at moment k. */
  ghost predicate HighestAt(g: Group, ts: seq<Event>, k: nat)
    requires k <= |ts|
  {
    forall u | u in Settled(g, ts[..k]).members :: IsHighestAck(g, ts[..k], u, CursorOf(Settled(g, ts[..k]), u))
  }

  lemma HeirHasNotAcked(g: Group, ts: seq<Event>, k: nat)
    requires k < |ts| && Inherits(Settled(g, ts[..k]), ts[k])
    ensures !HighestAt(g, ts, k + 1)
  {
    var front, t := ts[..k], ts[k];
    assert ts[..k + 1] == front + [t];
    SettledMore(g, front, t);
    JoinsNow(Settled(g, front), t);
    JoinStep(Settled(g, front), t, t.request.target);
    HighestAtJoin(g, front, t, t.request.target, CursorOf(Settled(g, ts[..k + 1]), t.request.target));
  }

  lemma JoinsNow(g: Group, e: Event)
    requires Inherits(g, e)
    ensures e.request.target in Act(g, e).g.members
  {
    hide NextLogSeq;
  }

  /** In every interleaving: each member's cursor is the highest seq it has acknowledged during its
      present membership (0 without one), at every moment, exactly when nobody joins to find a cursor
      waiting. */
  lemma CursorIsHighestAckIffNobodyInherits(creator: UserId, ts: seq<Event>)
    requires Interleaving(NewGroup(creator), ts)
    ensures (forall k | 0 <= k <= |ts| :: HighestAt(NewGroup(creator), ts, k)) <==>
            Never(States(NewGroup(creator), ts), ts, Inherits)
  {
    hide Act, Inherits, IsHighestAck, CursorOf, Settled, Interleaving;
    var g0 := NewGroup(creator);
    if Never(States(g0, ts), ts, Inherits) {
      forall k, u | 0 <= k <= |ts| && u in Settled(g0, ts[..k]).members
        ensures IsHighestAck(g0, ts[..k], u, CursorOf(Settled(g0, ts[..k]), u))
      {
        InterleavingPrefix(g0, ts, k);
        InterleavingIsWellFormed(g0, ts[..k]);
        NeverPrefix(g0, ts, k, Inherits);
        HighestWhileNobodyInherits(creator, ts[..k], u);
      }
    } else {
      var k :| 0 <= k < |ts| && Inherits(States(g0, ts)[k], ts[k]);
      HeirHasNotAcked(g0, ts, k);
    }
  }

  lemma NoStrayNoHeir(g: Group, e: Event)
    requires NoStray(g)
    ensures !Inherits(g, e)
  {}

  /** Only a stray acknowledgement leaves something to inherit; so with atomic handlers nobody does, and
      a member's cursor is its highest acknowledgement. */
  lemma CursorIsHighestAck(creator: UserId, es: seq<Event>, u: UserId)
    requires u in Served(NewGroup(creator), es).members
    ensures var g0, ts := NewGroup(creator), Passed(NewGroup(creator), es);
            IsHighestAck(g0, ts, u, CursorOf(Served(g0, es), u))
  {
    hide Act, NoStray, Inherits, Strays, IsHighestAck, CursorOf, Served, Settled, Interleaving, Passed;
    var g0, ts := NewGroup(creator), Passed(NewGroup(creator), es);
    ServedIsAnInterleaving(g0, es);
    ServedNeverStrays(creator, es);
    NoStrayIffNoStrayAck(creator, ts);
    forall k | 0 <= k < |ts| ensures !Inherits(States(g0, ts)[k], ts[k]) {
      assert NoStray(States(g0, ts)[k]);
      NoStrayNoHeir(States(g0, ts)[k], ts[k]);
    }
    InterleavingIsWellFormed(g0, ts);
    HighestWhileNobodyInherits(creator, ts, u);
  }

  // ---------- reading an acknowledgement back ----------

  lemma CursorStaysUp(g: Group, e: Event, u: UserId)
    requires u in g.cursors && u in Act(g, e).g.members
    ensures u in Act(g, e).g.cursors && Act(g, e).g.cursors[u] >= g.cursors[u]
  {
    MemberFootprint(g, e);
    match e.request
    case Kick(_, target) => RemovedIsOut(g, target);
    case Leave(user, _) => if user == u { LeaversLeave(g, e); }
    case Ack(_, _) =>
    case _ => assert !WritesCursors(e.request);
  }

  lemma RemovedIsOut(g: Group, u: UserId)
    ensures u !in RemoveMember(g, u).g.members
  {}

  lemma LeaversLeave(g: Group, e: Event)
    requires e.request.Leave? && e.request.user in Act(g, e).g.members
    ensures Act(g, e).g == g
  {}

  /** The cursor that an endpoint reads back after recording an acknowledgement has not fallen behind it,
      whatever comes between, unless the membership has ended. */
  lemma {:induction false} RecordedAckIsNotLost(g: Group, ts: seq<Event>, u: UserId, n: int, now: int)
    requires var acked := Act(g, Event(Ack(u, n), now)).g;
             forall k | 0 <= k <= |ts| :: u in States(acked, ts)[k].members
    ensures var after := Settled(Act(g, Event(Ack(u, n), now)).g, ts);
            u in after.cursors && after.cursors[u] >= n
    decreases |ts|
  {
    var acked := Act(g, Event(Ack(u, n), now)).g;
    assert u in acked.cursors && acked.cursors[u] >= n;
    hide Act;
    if ts != [] {
      var front := ts[..|ts| - 1];
      assert forall k | 0 <= k <= |front| :: front[..k] == ts[..k];
      assert forall k | 0 <= k <= |front| :: States(acked, front)[k] == States(acked, ts)[k];
      RecordedAckIsNotLost(g, front, u, n, now);
      StatesChain(acked, ts, |front|);
      StatesChain(acked, ts, |ts|);
      CursorStaysUp(Settled(acked, front), ts[|ts| - 1], u);
    }
  }

  // ---------- a late acknowledgement, and what it leads to ----------

  /** Message 1 is queued, with these members and cursors. */
  ghost predicate FirstQueued(g: Group, owner: UserId, members: map<UserId, MemberRow>, cursors: map<UserId, int>) {
    && g.state == Active && g.epoch == 0 && g.members == members && g.cursors == cursors
    && g.queue == map[1 := MessageRow(0, owner, "a", "x")] && g.minSeq == 0
  }

  lemma FirstIsSeen(g: Group, ts: seq<Event>, n: nat, k: nat, owner: UserId, members: map<UserId, MemberRow>)
    requires n <= k <= |ts| && FirstQueued(Settled(g, ts[..n]), owner, members, map[])
    ensures SeqWasQueued(g, ts[..k], 1)
  {
    hide Settled;
    MaxOfOne(1);
    assert ts[..k][..n] == ts[..n];
    assert Settled(g, ts[..n]).queue.Keys == {1};
  }

  function Alone(owner: UserId): map<UserId, MemberRow> {
    map[owner := MemberRow(Owner, 0)]
  }

  function Both(owner: UserId, u: UserId): map<UserId, MemberRow> {
    Alone(owner)[u := MemberRow(Member, 0)]
  }

  lemma FirstMessage(owner: UserId, u: UserId)
    requires owner != u
    ensures var g1 := Act(NewGroup(owner), Event(Welcome(owner, u, 0, "w"), 0)).g;
            FirstQueued(Act(g1, Event(Send(owner, 0, "a", "x"), 1)).g, owner, Both(owner, u), map[])
  {}

  lemma AckPasses(g: Group, owner: UserId, u: UserId)
    requires FirstQueued(g, owner, Both(owner, u), map[]) && u != ""
    ensures Guard(g, Ack(u, 1)) == Proceed
  {
    MaxOfOne(1);
    assert g.queue.Keys == {1};
  }

  lemma LeaveActs(g: Group, owner: UserId, u: UserId, now: int)
    requires FirstQueued(g, owner, Both(owner, u), map[]) && owner != u
    ensures FirstQueued(Act(g, Event(Leave(u, ""), now)).g, owner, Alone(owner), map[])
  {
    assert Both(owner, u) - {u} == Alone(owner);
  }

  lemma AckActs(g: Group, owner: UserId, members: map<UserId, MemberRow>, cursors: map<UserId, int>, u: UserId,
        now: int)
    requires FirstQueued(g, owner, members, cursors) && u !in cursors
    ensures FirstQueued(Act(g, Event(Ack(u, 1), now)).g, owner, members, cursors[u := 1])
  {}

  lemma WelcomeActs(g: Group, owner: UserId, cursors: map<UserId, int>, u: UserId, now: int)
    requires FirstQueued(g, owner, Alone(owner), cursors) && owner != u
    ensures FirstQueued(Act(g, Event(Welcome(owner, u, 0, "w"), now)).g, owner, Both(owner, u), cursors)
  {
    hide NextLogSeq;
    assert |Alone(owner)| == 1;
  }

  lemma PassActs(g: Group, owner: UserId, u: UserId, now: int)
    requires FirstQueued(g, owner, Both(owner, u), map[u := 1][owner := 1])
    ensures var g' := Act(g, Event(Cleanup, now)).g;
            g'.members == Both(owner, u) && g'.queue == map[]
  {
    hide ReclaimMessages;
    assert owner in g.members;
    CleanupDropsFirst(g, now);
  }

  /** u reads message 1 and acknowledges it; the check passes, u leaves, the cursor is written, u is
      welcomed back; then the owner acknowledges message 1 too and a pass runs. */
  function LateAckRun(owner: UserId, u: UserId): (ts: seq<Event>)
    ensures |ts| == 7
  {
    [Event(Welcome(owner, u, 0, "w"), 0), Event(Send(owner, 0, "a", "x"), 1), Event(Leave(u, ""), 2),
     Event(Ack(u, 1), 3), Event(Welcome(owner, u, 0, "w"), 4), Event(Ack(owner, 1), 5), Event(Cleanup, 6)]
  }

  lemma LateAckEvents(owner: UserId, u: UserId)
    requires owner != "" && u != ""
    ensures var ts := LateAckRun(owner, u);
            && ts[0] == ts[4].(now := 0) && ts[4] == Event(Welcome(owner, u, 0, "w"), 4)
            && ts[1] == Event(Send(owner, 0, "a", "x"), 1) && ts[2] == Event(Leave(u, ""), 2)
            && ts[3] == Event(Ack(u, 1), 3) && ts[5] == Event(Ack(owner, 1), 5) && ts[6] == Event(Cleanup, 6)
    ensures forall k | 0 <= k < 7 :: WellFormed(LateAckRun(owner, u)[k].request)
  {}

  /** Up to the moment at which u's check passes. */
  lemma LateAckChecked(owner: UserId, u: UserId)
    requires owner != "" && u != "" && owner != u
    ensures var g0, ts := NewGroup(owner), LateAckRun(owner, u);
            && Interleaving(g0, ts[..2])
            && FirstQueued(Settled(g0, ts[..2]), owner, Both(owner, u), map[])
            && Guard(Settled(g0, ts[..2]), ts[3].request) == Proceed
  {
    hide Act, Settled, Interleaving, EpochWasCurrent, FirstQueued, Guard, WellFormed, LateAckRun;
    LateAckEvents(owner, u);
    var g0, ts := NewGroup(owner), LateAckRun(owner, u);
    NothingSettled(g0, ts);
    SettledStep(g0, ts, 0);
    FirstEpochWasCurrent(g0, ts[..1]);
    SettledStep(g0, ts, 1);
    FirstMessage(owner, u);
    AckPasses(Settled(g0, ts[..2]), owner, u);
  }

  /** Then u leaves, and the cursor is written all the same. */
  lemma LateAckWritten(owner: UserId, u: UserId)
    requires owner != "" && u != "" && owner != u
    ensures var g0, ts := NewGroup(owner), LateAckRun(owner, u);
            && Interleaving(g0, ts[..4])
            && FirstQueued(Settled(g0, ts[..4]), owner, Alone(owner), map[u := 1])
  {
    LateAckChecked(owner, u);
    hide *;
    LateAckEvents(owner, u);
    var g0, ts := NewGroup(owner), LateAckRun(owner, u);
    SettledStep(g0, ts, 2);
    LeaveActs(Settled(g0, ts[..2]), owner, u, 2);
    FirstIsSeen(g0, ts, 2, 3, owner, Both(owner, u));
    SettledStep(g0, ts, 3);
    AckActs(Settled(g0, ts[..3]), owner, Alone(owner), map[], u, 3);
  }

  /** u is welcomed back to that cursor. */
  lemma LateAckInherited(owner: UserId, u: UserId)
    requires owner != "" && u != "" && owner != u
    ensures var g0, ts := NewGroup(owner), LateAckRun(owner, u);
            && Interleaving(g0, ts[..5])
            && FirstQueued(Settled(g0, ts[..5]), owner, Both(owner, u), map[u := 1])
  {
    LateAckWritten(owner, u);
    hide *;
    LateAckEvents(owner, u);
    var g0, ts := NewGroup(owner), LateAckRun(owner, u);
    SettledStep(g0, ts, 4);
    WelcomeActs(Settled(g0, ts[..4]), owner, map[u := 1], u, 4);
  }

  /** The owner acknowledges message 1 too. */
  lemma LateAckCounted(owner: UserId, u: UserId)
    requires owner != "" && u != "" && owner != u
    ensures var g0, ts := NewGroup(owner), LateAckRun(owner, u);
            && Interleaving(g0, ts[..6])
            && FirstQueued(Settled(g0, ts[..6]), owner, Both(owner, u), map[u := 1][owner := 1])
  {
    LateAckChecked(owner, u);
    LateAckInherited(owner, u);
    hide *;
    LateAckEvents(owner, u);
    var g0, ts := NewGroup(owner), LateAckRun(owner, u);
    FirstIsSeen(g0, ts, 2, 5, owner, Both(owner, u));
    SettledStep(g0, ts, 5);
    AckActs(Settled(g0, ts[..5]), owner, Both(owner, u), map[u := 1], owner, 5);
  }

  /** And the pass takes it. */
  lemma LateAckPassed(owner: UserId, u: UserId)
    requires owner != "" && u != "" && owner != u
    ensures var g0, ts := NewGroup(owner), LateAckRun(owner, u);
            Interleaving(g0, ts) && Settled(g0, ts).members == Both(owner, u) && Settled(g0, ts).queue == map[]
  {
    LateAckCounted(owner, u);
    hide *;
    LateAckEvents(owner, u);
    var g0, ts := NewGroup(owner), LateAckRun(owner, u);
    SettledStep(g0, ts, 6);
    PassActs(Settled(g0, ts[..6]), owner, u, 6);
    assert ts[..7] == ts;
  }

  /** An acknowledgement written after its membership check went stale: the cursor of somebody who has
      left stands at 1, welcomed back it inherits that, and a pass takes message 1 although in its present
      membership u has acknowledged nothing. */
  lemma SplitAckOutlivesMembership(owner: UserId, u: UserId)
    requires owner != "" && u != "" && owner != u
    ensures var g0, ts := NewGroup(owner), LateAckRun(owner, u);
            && Guard(Settled(g0, ts[..2]), ts[3].request) == Proceed
            && Interleaving(g0, ts)
            && !CursorsOfMembers(Settled(g0, ts[..4])) && !NoStray(Settled(g0, ts[..4]))
            && Inherits(Settled(g0, ts[..4]), ts[4])
            && !CursorMoved(Settled(g0, ts[..4]), Settled(g0, ts[..5]), u)
            && !HighestAt(g0, ts, 5)
            && u in Settled(g0, ts).members && 1 in Settled(g0, ts[..5]).queue && 1 !in Settled(g0, ts).queue
  {
    LateAckChecked(owner, u);
    LateAckWritten(owner, u);
    LateAckInherited(owner, u);
    LateAckPassed(owner, u);
    var g0, ts := NewGroup(owner), LateAckRun(owner, u);
    hide Act, Settled, Interleaving, Guard, HighestAt;
    assert u in Settled(g0, ts[..4]).cursors;
    HeirHasNotAcked(g0, ts, 4);
  }
}
