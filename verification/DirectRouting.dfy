/** Where a direct message goes: into the recipient's live channel when there is one with room, into the
    offline queue when that has room, and nowhere else. */
module DirectRouting {
  import opened DirectMessages
  import Session

  /** u is online and fewer than 256 messages wait in its channel. */
  predicate Reachable(s: Session.State, u: UserId) {
    u in s.users && |Session.Buffered(s, s.users[u])| < 256
  }

  lemma ReachableMeansAccepted(s: Session.State, u: UserId)
    requires Session.Wf(s)
    ensures Reachable(s, u) <==> Session.Accepts(s, u)
  {
    if u in s.users {
      assert Session.Open(s, s.users[u]);
    }
  }

  lemma SessionsAreWf(es: seq<Step>)
    ensures Session.Wf(Run(es).sessions)
  {
    hide Session.Wf, Run;
    SessionsFollowTrace(es);
    Session.NeverPanics(Trace(es));
  }

  // ---------- a send with nothing in between ----------

  /** msg is the newest message in u's channel, and no other channel or session has changed. */
  ghost predicate Pushed(s: Session.State, s': Session.State, u: UserId, msg: Envelope) {
    && u in s.users && s'.users == s.users
    && Session.Buffered(s', s.users[u]) == Session.Buffered(s, s.users[u]) + [msg]
    && forall g: nat | g != s.users[u] :: Session.Buffered(s', g) == Session.Buffered(s, g)
  }

  lemma EnqueuePushes(s: Session.State, u: UserId, msg: Envelope)
    requires Session.Wf(s)
    ensures Reachable(s, u) ==> Pushed(s, Session.EnqueueMessage(s, u, msg), u, msg)
    ensures !Reachable(s, u) ==> Session.EnqueueMessage(s, u, msg) == s
  {
    if u in s.users {
      assert Session.Open(s, s.users[u]);
    }
  }

  /** s' is s after msg has been sent to `to`: delivered when `to` is reachable; otherwise stored when
      fewer than 1000 messages wait for `to`; otherwise refused. */
  ghost predicate Routed(s: State, s': State, to: UserId, msg: Envelope) {
    if Reachable(s.sessions, to) then
      && s'.sends == s.sends + [Send(to, msg, Done(Live(s.sessions.users[to])))]
      && s'.table == s.table && Pushed(s.sessions, s'.sessions, to, msg)
    else if |QueueOf(s.table, to)| < 1000 then
      && s'.sends == s.sends + [Send(to, msg, Done(Offline))]
      && s'.table == s.table + [Row(to, msg)] && s'.sessions == s.sessions
    else
      && s'.sends == s.sends + [Send(to, msg, Done(QueueFull))]
      && s'.table == s.table && s'.sessions == s.sessions
  }

  lemma RoutedAtOnce(s: State, to: UserId, msg: Envelope)
    requires Session.Wf(s.sessions)
    ensures var i := |s.sends|;
            Routed(s, AdvanceSend(AdvanceSend(AdvanceSend(Do(s, Begin(to, msg)), i), i), i), to, msg)
  {
    ReachableMeansAccepted(s.sessions, to);
    EnqueuePushes(s.sessions, to, msg);
    hide Session.Wf, Session.EnqueueMessage, Session.Accepts, QueueOf, Pushed;
    var i := |s.sends|;
    var s1 := AdvanceSend(Do(s, Begin(to, msg)), i);
    assert s1 == s.(sends := s.sends + [Send(to, msg, if to in s.sessions.users then Enqueuing else Storing)]);
    if Reachable(s.sessions, to) {
      assert AdvanceSend(s1, i).sends == s.sends + [Send(to, msg, Done(Live(s.sessions.users[to])))];
    } else {
      StoredAtOnce(s, to, msg);
      if to in s.sessions.users {
        assert AdvanceSend(s1, i) == s.(sends := s.sends + [Send(to, msg, Storing)]);
      }
    }
  }

  lemma StoredAtOnce(s: State, to: UserId, msg: Envelope)
    requires !Reachable(s.sessions, to)
    ensures var i, stored := |s.sends|, AdvanceSend(s.(sends := s.sends + [Send(to, msg, Storing)]), |s.sends|);
            Routed(s, stored, to, msg) && AdvanceSend(stored, i) == stored
  {
    hide QueueOf;
  }

  /** In every reachable state: a message sent with nothing in between goes live exactly when the recipient
      is online with fewer than 256 messages waiting in its channel, whose newest it then is, the offline
      queue untouched; otherwise it is stored exactly when fewer than 1000 wait there, and refused when a
      thousand do, the sessions untouched. */
  lemma SentAtOnce(es: seq<Step>, to: UserId, msg: Envelope)
    ensures var i := |Run(es).sends|;
            Routed(Run(es), Run(es + [Begin(to, msg), Advance(i), Advance(i), Advance(i)]), to, msg)
  {
    hide Session.Wf, Routed, AdvanceSend, Run;
    var s, i := Run(es), |Run(es).sends|;
    SessionsAreWf(es);
    RoutedAtOnce(s, to, msg);
    var all := es + [Begin(to, msg), Advance(i), Advance(i), Advance(i)];
    assert all[..|es|] == es && all[..|es| + 4] == all;
    RunNext(all, |es|);
    RunNext(all, |es| + 1);
    AdvanceIsOwnTurn(Run(all[..|es| + 1]), i);
    RunNext(all, |es| + 2);
    AdvanceIsOwnTurn(Run(all[..|es| + 2]), i);
    RunNext(all, |es| + 3);
    AdvanceIsOwnTurn(Run(all[..|es| + 3]), i);
  }

  lemma RunNext(es: seq<Step>, k: nat)
    requires k < |es|
    ensures Run(es[..k + 1]) == Do(Run(es[..k]), es[k])
  {
    assert es[..k + 1][..k] == es[..k];
  }

  lemma AdvanceIsOwnTurn(s: State, i: nat)
    requires i < |s.sends|
    ensures Do(s, Advance(i)) == AdvanceSend(s, i) && i < |Do(s, Advance(i)).sends|
  {}

  // ---------- a send among everything else ----------

  /** Step k is turn n of send i, counted from 0. */
  predicate TurnAt(es: seq<Step>, k: nat, i: nat, n: nat) {
    k < |es| && es[k] == Advance(i) && i < |Run(es[..k]).sends| && Turns(es[..k], i) == n
  }

  lemma TurnsNext(es: seq<Step>, k: nat, i: nat)
    requires k < |es|
    ensures Turns(es[..k + 1], i) ==
            Turns(es[..k], i) + if es[k] == Advance(i) && i < |Run(es[..k]).sends| then 1 else 0
  {
    hide Run;
    assert es[..k + 1][..k] == es[..k];
  }

  lemma {:induction false} TurnsRise(es: seq<Step>, j: nat, k: nat, i: nat)
    requires j <= k <= |es|
    ensures Turns(es[..j], i) <= Turns(es[..k], i)
    decreases k - j
  {
    hide Run, Turns;
    if j < k {
      TurnsRise(es, j, k - 1, i);
      TurnsNext(es, k - 1, i);
    }
  }

  /** A send has each turn once. */
  lemma TurnIsUnique(es: seq<Step>, j: nat, k: nat, i: nat, n: nat)
    requires TurnAt(es, j, i, n) && TurnAt(es, k, i, n)
    ensures j == k
  {
    hide Run, Turns;
    TurnsNext(es, j, i);
    TurnsNext(es, k, i);
    if j < k {
      TurnsRise(es, j + 1, k, i);
    } else if k < j {
      TurnsRise(es, k + 1, j, i);
    }
  }

  lemma TurnStays(es: seq<Step>, e: Step, k: nat, i: nat, n: nat)
    requires k < |es|
    ensures TurnAt(es + [e], k, i, n) <==> TurnAt(es, k, i, n)
    ensures (es + [e])[..k] == es[..k]
  {
    hide Run, Turns;
    assert (es + [e])[..k] == es[..k];
  }

  ghost predicate OnlineAt(es: seq<Step>, k: nat, to: UserId)
    requires k <= |es|
  {
    to in Run(es[..k]).sessions.users
  }

  ghost predicate ReachableAt(es: seq<Step>, k: nat, to: UserId)
    requires k <= |es|
  {
    Reachable(Run(es[..k]).sessions, to)
  }

  /** At its first turn send i found its recipient online. */
  ghost predicate FoundOnline(es: seq<Step>, i: nat, to: UserId) {
    exists k: nat :: TurnAt(es, k, i, 0) && OnlineAt(es, k, to)
  }

  /** At its second turn, after that, it found its recipient reachable, as generation g. */
  ghost predicate FoundReachable(es: seq<Step>, i: nat, to: UserId, g: nat) {
    && FoundOnline(es, i, to)
    && exists k: nat :: TurnAt(es, k, i, 1) && ReachableAt(es, k, to) && Run(es[..k]).sessions.users[to] == g
  }

  /** At its first turn it found its recipient offline, or at its second, after finding it online,
      unreachable. */
  ghost predicate FoundNobody(es: seq<Step>, i: nat, to: UserId) {
    || (exists k: nat :: TurnAt(es, k, i, 0) && !OnlineAt(es, k, to))
    || (FoundOnline(es, i, to) && exists k: nat :: TurnAt(es, k, i, 1) && !ReachableAt(es, k, to))
  }

  /** Step k is the turn of send i at which it turns to the offline queue, which is full or not. */
  ghost predicate QueueAt(es: seq<Step>, k: nat, i: nat, to: UserId, full: bool) {
    && k < |es| && es[k] == Advance(i)
    && i < |Run(es[..k]).sends| && Run(es[..k]).sends[i].phase == Storing
    && (full <==> |QueueOf(Run(es[..k]).table, to)| >= 1000)
  }

  ghost predicate FoundQueue(es: seq<Step>, i: nat, to: UserId, full: bool) {
    FoundNobody(es, i, to) && exists k: nat :: QueueAt(es, k, i, to, full)
  }

  /** What send i has found so far is why it is where it is. */
  ghost predicate Justified(es: seq<Step>, i: nat, send: Send) {
    match send.phase
    case Checking => Turns(es, i) == 0
    case Enqueuing => Turns(es, i) == 1 && FoundOnline(es, i, send.to)
    case Storing => FoundNobody(es, i, send.to)
    case Done(Live(g)) => FoundReachable(es, i, send.to, g)
    case Done(Offline) => FoundQueue(es, i, send.to, false)
    case Done(QueueFull) => FoundQueue(es, i, send.to, true)
  }

  lemma QueueStays(es: seq<Step>, e: Step, k: nat, i: nat, to: UserId, full: bool)
    requires QueueAt(es, k, i, to, full)
    ensures QueueAt(es + [e], k, i, to, full)
  {
    hide Run, QueueOf;
    assert (es + [e])[..k] == es[..k];
  }

  lemma FindingsStay(es: seq<Step>, e: Step, i: nat, to: UserId)
    ensures FoundOnline(es, i, to) ==> FoundOnline(es + [e], i, to)
    ensures forall g: nat :: FoundReachable(es, i, to, g) ==> FoundReachable(es + [e], i, to, g)
    ensures FoundNobody(es, i, to) ==> FoundNobody(es + [e], i, to)
    ensures forall full :: FoundQueue(es, i, to, full) ==> FoundQueue(es + [e], i, to, full)
  {
    hide Run, Turns, Reachable, QueueAt;
    forall k: nat, n: nat ensures TurnAt(es, k, i, n) ==> TurnAt(es + [e], k, i, n)
                          ensures k < |es| ==> (es + [e])[..k] == es[..k] {
      if k < |es| {
        TurnStays(es, e, k, i, n);
      }
    }
    forall full | FoundQueue(es, i, to, full) ensures FoundQueue(es + [e], i, to, full) {
      var k: nat :| QueueAt(es, k, i, to, full);
      QueueStays(es, e, k, i, to, full);
    }
  }

  lemma JustifiedStays(es: seq<Step>, e: Step, i: nat, send: Send)
    requires Justified(es, i, send) && (e != Advance(i) || i >= |Run(es).sends| || send.phase.Done?)
    ensures Justified(es + [e], i, send)
  {
    hide Run, Turns, FoundOnline, FoundReachable, FoundNobody, FoundQueue;
    FindingsStay(es, e, i, send.to);
    if e != Advance(i) || i >= |Run(es).sends| {
      TurnsAppended(es, e, i);
    }
  }

  lemma TurnsAppended(es: seq<Step>, e: Step, i: nat)
    ensures Turns(es + [e], i) == Turns(es, i) + if e == Advance(i) && i < |Run(es).sends| then 1 else 0
  {
    hide Run;
    assert (es + [e])[..|es|] == es;
  }

  /** The turn that send i takes now. */
  lemma ThisTurn(es: seq<Step>, i: nat)
    requires i < |Run(es).sends|
    ensures TurnAt(es + [Advance(i)], |es|, i, Turns(es, i)) && (es + [Advance(i)])[..|es|] == es
  {
    hide Run, Turns;
  }

  lemma LooksJustified(es: seq<Step>, i: nat)
    requires i < |Run(es).sends| && Run(es).sends[i].phase == Checking && Justified(es, i, Run(es).sends[i])
    ensures Justified(es + [Advance(i)], i, AdvanceSend(Run(es), i).sends[i])
  {
    hide Run, Turns, QueueOf, FoundReachable, FoundQueue, Session.EnqueueMessage;
    ThisTurn(es, i);
    TurnsAppended(es, Advance(i), i);
    assert OnlineAt(es + [Advance(i)], |es|, Run(es).sends[i].to) <==> Run(es).sends[i].to in Run(es).sessions.users;
  }

  lemma TriesJustified(es: seq<Step>, i: nat)
    requires i < |Run(es).sends| && Run(es).sends[i].phase == Enqueuing && Justified(es, i, Run(es).sends[i])
    ensures Justified(es + [Advance(i)], i, AdvanceSend(Run(es), i).sends[i])
  {
    var to := Run(es).sends[i].to;
    SessionsAreWf(es);
    ReachableMeansAccepted(Run(es).sessions, to);
    ThisTurn(es, i);
    FindingsStay(es, Advance(i), i, to);
    hide Session.Wf, Run, Turns, QueueOf, FoundOnline, FoundQueue, Session.EnqueueMessage, Session.Accepts, Reachable;
    assert ReachableAt(es + [Advance(i)], |es|, to) <==> Reachable(Run(es).sessions, to);
  }

  lemma StoringTurn(s: State, i: nat)
    requires i < |s.sends| && s.sends[i].phase == Storing
    ensures AdvanceSend(s, i).sends[i] ==
            s.sends[i].(phase := Done(if |QueueOf(s.table, s.sends[i].to)| >= 1000 then QueueFull else Offline))
  {
    hide QueueOf;
  }

  lemma StoresJustified(es: seq<Step>, i: nat)
    requires i < |Run(es).sends| && Run(es).sends[i].phase == Storing && Justified(es, i, Run(es).sends[i])
    ensures Justified(es + [Advance(i)], i, AdvanceSend(Run(es), i).sends[i])
  {
    var to := Run(es).sends[i].to;
    var full := |QueueOf(Run(es).table, to)| >= 1000;
    FindingsStay(es, Advance(i), i, to);
    StoringTurn(Run(es), i);
    hide Run, QueueOf, FoundNobody, AdvanceSend;
    assert (es + [Advance(i)])[..|es|] == es;
    assert QueueAt(es + [Advance(i)], |es|, i, to, full);
  }

  lemma {:induction false} EachSendIsJustified(es: seq<Step>, i: nat)
    ensures i < |Run(es).sends| ==> Justified(es, i, Run(es).sends[i])
    decreases |es|
  {
    hide Run, Justified, AdvanceSend;
    if es == [] {
      NoSendsYet();
    } else {
      var front, e := es[..|es| - 1], es[|es| - 1];
      assert es == front + [e];
      RunNext(es, |front|);
      assert es[..|es|] == es;
      var s := Run(front);
      EachSendIsJustified(front, i);
      if i < |s.sends| {
        if e != Advance(i) {
          OtherSendsStay(s, e, i);
          JustifiedStays(front, e, i, s.sends[i]);
        } else {
          AdvanceIsOwnTurn(s, i);
          AdvanceJustified(front, i);
        }
      } else if i < |Run(es).sends| {
        BegunJustified(front, e, i);
      }
    }
  }

  lemma NoSendsYet()
    ensures Run([]).sends == []
  {}

  lemma AdvanceJustified(es: seq<Step>, i: nat)
    requires i < |Run(es).sends| && Justified(es, i, Run(es).sends[i])
    ensures Justified(es + [Advance(i)], i, AdvanceSend(Run(es), i).sends[i])
  {
    hide Run, Justified;
    match Run(es).sends[i].phase
    case Checking => LooksJustified(es, i);
    case Enqueuing => TriesJustified(es, i);
    case Storing => StoresJustified(es, i);
    case Done(_) => JustifiedStays(es, Advance(i), i, Run(es).sends[i]);
  }

  lemma BegunJustified(es: seq<Step>, e: Step, i: nat)
    requires i >= |Run(es).sends| && i < |Do(Run(es), e).sends|
    ensures Justified(es + [e], i, Do(Run(es), e).sends[i])
  {
    EachSendEndsInOnePlace(es, i);
    TurnsAppended(es, e, i);
    hide Run, Turns, Session.Do, Session.EnqueueMessage, Session.Accepts, QueueOf, Cleared;
  }

  /** What a send found at its turns excludes the opposite finding. */
  lemma FindingsExclude(es: seq<Step>, i: nat, to: UserId, g: nat)
    requires FoundReachable(es, i, to, g)
    ensures !FoundNobody(es, i, to)
  {
    hide Run, Turns, Reachable;
    forall j: nat, k: nat, n: nat | TurnAt(es, j, i, n) && TurnAt(es, k, i, n) ensures j == k {
      TurnIsUnique(es, j, k, i, n);
    }
  }

  /** Whatever happens between its turns, a send that is over went live exactly when it found its recipient
      online at its first turn and reachable at its second; stored or refused exactly when one of the two
      failed; and refused exactly when it then found a thousand messages waiting. */
  lemma EndsWhereItsTurnsSay(es: seq<Step>, i: nat)
    requires i < |Run(es).sends| && Run(es).sends[i].phase.Done?
    ensures var to, where := Run(es).sends[i].to, Run(es).sends[i].phase.where;
            && (where.Live? <==> exists g: nat :: FoundReachable(es, i, to, g))
            && (where.Live? ==> FoundReachable(es, i, to, where.generation))
            && (!where.Live? <==> FoundNobody(es, i, to))
            && (where == Offline ==> FoundQueue(es, i, to, false))
            && (where == QueueFull ==> FoundQueue(es, i, to, true))
  {
    EachSendIsJustified(es, i);
    hide Run, FoundReachable, FoundNobody;
    var to := Run(es).sends[i].to;
    if g: nat :| FoundReachable(es, i, to, g) {
      FindingsExclude(es, i, to, g);
    }
  }
}
