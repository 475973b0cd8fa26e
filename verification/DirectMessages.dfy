/** Direct messages: a send that has passed its checks asks whether the recipient is online, tries the
    live channel, and falls back to the offline queue. Each of the three is one step; between them
    any session may come and go, other sends may advance, and the recipient may fetch. */
module DirectMessages {
  import Session

  type UserId = Session.UserId
  type Envelope = Session.Envelope

  const OFFLINE_MAX: nat := 1000

  // ---------- the offline queue ----------

  /** Rows are listed in the order of their AUTOINCREMENT id. */
  datatype Row = Row(recipient: UserId, msg: Envelope)

  function QueueOf(table: seq<Row>, u: UserId): (q: seq<Envelope>)
    ensures |q| <= |table|
  {
    if table == [] then [] else
      var rest, last := QueueOf(table[..|table| - 1], u), table[|table| - 1];
      if last.recipient == u then rest + [last.msg] else rest
  }

  /** What is left when u's rows are deleted. */
  function Cleared(table: seq<Row>, u: UserId): (left: seq<Row>)
    ensures |left| <= |table|
  {
    if table == [] then [] else
      var rest, last := Cleared(table[..|table| - 1], u), table[|table| - 1];
      if last.recipient == u then rest else rest + [last]
  }

  lemma QueueAppend(table: seq<Row>, row: Row, u: UserId)
    ensures QueueOf(table + [row], u) == QueueOf(table, u) + if row.recipient == u then [row.msg] else []
  {
    assert (table + [row])[..|table|] == table;
  }

  /** Clearing empties one recipient's queue and leaves every other one as it was. */
  lemma {:induction false} ClearedQueues(table: seq<Row>, u: UserId, v: UserId)
    ensures QueueOf(Cleared(table, u), v) == if u == v then [] else QueueOf(table, v)
    decreases |table|
  {
    if table != [] {
      var front, last := table[..|table| - 1], table[|table| - 1];
      ClearedQueues(front, u, v);
      if last.recipient != u {
        QueueAppend(Cleared(front, u), last, v);
      }
    }
  }

  // ---------- sends and their steps ----------

  datatype Where = Live(generation: nat) | Offline | QueueFull

  datatype Phase = Checking | Enqueuing | Storing | Done(where: Where)

  datatype Send = Send(to: UserId, msg: Envelope, phase: Phase)

  datatype State = State(sessions: Session.State, table: seq<Row>, sends: seq<Send>)

  datatype Step =
    | Begin(to: UserId, msg: Envelope)
    | Advance(send: nat)
    | OtherSession(step: Session.Step)
    | Fetch(user: UserId)

  function SetPhase(s: State, i: nat, p: Phase): State
    requires i < |s.sends|
  {
    s.(sends := s.sends[i := s.sends[i].(phase := p)])
  }

  /** The next operation of send i. */
  function AdvanceSend(s: State, i: nat): State
    requires i < |s.sends|
  {
    var send := s.sends[i];
    match send.phase
    case Checking =>
      SetPhase(s, i, if send.to in s.sessions.users then Enqueuing else Storing)
    case Enqueuing =>
      var next := SetPhase(s, i, if Session.Accepts(s.sessions, send.to) then Done(Live(s.sessions.users[send.to]))
                                 else Storing);
      next.(sessions := Session.EnqueueMessage(s.sessions, send.to, send.msg))
    case Storing =>
      if |QueueOf(s.table, send.to)| >= OFFLINE_MAX then SetPhase(s, i, Done(QueueFull))
      else SetPhase(s, i, Done(Offline)).(table := s.table + [Row(send.to, send.msg)])
    case Done(_) => s
  }

  function Do(s: State, e: Step): State {
    match e
    case Begin(to, msg) => s.(sends := s.sends + [Send(to, msg, Checking)])
    case Advance(i) => if i < |s.sends| then AdvanceSend(s, i) else s
    case OtherSession(step) => s.(sessions := Session.Do(s.sessions, step).0)
    case Fetch(u) => s.(table := Cleared(s.table, u))
  }

  function Run(es: seq<Step>): State {
    if es == [] then State(Session.Run([]), [], []) else Do(Run(es[..|es| - 1]), es[|es| - 1])
  }

  // ---------- what the steps of a run did, step by step ----------

  predicate Enqueues(s: State, e: Step, i: nat) {
    e == Advance(i) && i < |s.sends| && s.sends[i].phase == Enqueuing && Session.Accepts(s.sessions, s.sends[i].to)
  }

  predicate Stores(s: State, e: Step, i: nat) {
    e == Advance(i) && i < |s.sends| && s.sends[i].phase == Storing && |QueueOf(s.table, s.sends[i].to)| < OFFLINE_MAX
  }

  /** How often send i's message was put into a channel. */
  function TimesEnqueued(es: seq<Step>, i: nat): nat {
    if es == [] then 0 else
      TimesEnqueued(es[..|es| - 1], i) + if Enqueues(Run(es[..|es| - 1]), es[|es| - 1], i) then 1 else 0
  }

  /** How often send i's message was put into the offline queue. */
  function TimesStored(es: seq<Step>, i: nat): nat {
    if es == [] then 0 else
      TimesStored(es[..|es| - 1], i) + if Stores(Run(es[..|es| - 1]), es[|es| - 1], i) then 1 else 0
  }

  /** How many turns send i has had. */
  function Turns(es: seq<Step>, i: nat): nat {
    if es == [] then 0 else
      var front := es[..|es| - 1];
      Turns(front, i) + if es[|es| - 1] == Advance(i) && i < |Run(front).sends| then 1 else 0
  }

  /** The send is where its phase says, and nowhere else. */
  ghost predicate Placed(es: seq<Step>, i: nat) {
    if i >= |Run(es).sends| then TimesEnqueued(es, i) == TimesStored(es, i) == Turns(es, i) == 0
    else
      var p := Run(es).sends[i].phase;
      && TimesEnqueued(es, i) == (if p.Done? && p.where.Live? then 1 else 0)
      && TimesStored(es, i) == (if p.Done? && p.where.Offline? then 1 else 0)
      && (p == Checking ==> Turns(es, i) == 0)
      && (p == Enqueuing ==> Turns(es, i) == 1)
      && (p == Storing ==> 1 <= Turns(es, i) <= 2)
  }

  lemma OtherSendsStay(s: State, e: Step, i: nat)
    requires i < |s.sends| && e != Advance(i)
    ensures i < |Do(s, e).sends| && Do(s, e).sends[i] == s.sends[i]
  {}

  /** Whatever happens between its steps, a send ends in exactly one of the recipient's live channel,
      the offline queue, or the refusal of a full queue; until it ends it is nowhere; only the
      channel counts as delivered; and three turns of its own always end it. */
  lemma {:induction false} EachSendEndsInOnePlace(es: seq<Step>, i: nat)
    ensures Placed(es, i)
    ensures Turns(es, i) >= 3 ==> i < |Run(es).sends| && Run(es).sends[i].phase.Done?
    decreases |es|
  {
    if es != [] {
      var front, e := es[..|es| - 1], es[|es| - 1];
      EachSendEndsInOnePlace(front, i);
      if i < |Run(front).sends| && e != Advance(i) {
        OtherSendsStay(Run(front), e, i);
      }
    }
  }

  // ---------- delivered means in the channel ----------

  /** The session steps of a run, the sends' own enqueues among them. */
  function Trace(es: seq<Step>): seq<Session.Step> {
    if es == [] then [] else Trace(es[..|es| - 1]) + SessionStep(Run(es[..|es| - 1]), es[|es| - 1])
  }

  function SessionStep(s: State, e: Step): seq<Session.Step> {
    match e
    case OtherSession(step) => [step]
    case Advance(i) =>
      if i < |s.sends| && s.sends[i].phase == Enqueuing then [Session.Enqueue(s.sends[i].to, s.sends[i].msg)] else []
    case _ => []
  }

  lemma TraceStep(s: State, e: Step, trace: seq<Session.Step>)
    requires s.sessions == Session.Run(trace)
    ensures Do(s, e).sessions == Session.Run(trace + SessionStep(s, e))
  {
    var more := SessionStep(s, e);
    if more == [] {
      assert trace + more == trace;
    } else {
      assert (trace + more)[..|trace|] == trace;
    }
  }

  lemma {:induction false} SessionsFollowTrace(es: seq<Step>)
    ensures Run(es).sessions == Session.Run(Trace(es))
    decreases |es|
  {
    if es != [] {
      hide Do, SessionStep;
      SessionsFollowTrace(es[..|es| - 1]);
      TraceStep(Run(es[..|es| - 1]), es[|es| - 1], Trace(es[..|es| - 1]));
    }
  }

  /** If send i ended live, its message was accepted into that generation's channel. */
  ghost predicate LiveIn(s: State, trace: seq<Session.Step>, i: nat) {
    i < |s.sends| && s.sends[i].phase.Done? && s.sends[i].phase.where.Live? ==>
      s.sends[i].msg in Session.Sent(trace, s.sends[i].phase.where.generation)
  }

  lemma SentGrows(trace: seq<Session.Step>, more: seq<Session.Step>, g: nat)
    requires |more| <= 1
    ensures Session.Sent(trace, g) <= Session.Sent(trace + more, g)
  {
    if more == [] {
      assert trace + more == trace;
    } else {
      assert (trace + more)[..|trace|] == trace;
    }
  }

  lemma EnqueuedIsSent(s: State, i: nat, trace: seq<Session.Step>)
    requires Enqueues(s, Advance(i), i) && s.sessions == Session.Run(trace)
    ensures s.sends[i].msg in Session.Sent(trace + SessionStep(s, Advance(i)), s.sessions.users[s.sends[i].to])
  {
    var step := Session.Enqueue(s.sends[i].to, s.sends[i].msg);
    assert SessionStep(s, Advance(i)) == [step];
    assert (trace + [step])[..|trace|] == trace;
  }

  lemma LiveStep(s: State, e: Step, trace: seq<Session.Step>, i: nat)
    requires s.sessions == Session.Run(trace) && LiveIn(s, trace, i)
    ensures LiveIn(Do(s, e), trace + SessionStep(s, e), i)
  {
    if i < |s.sends| {
      if Enqueues(s, e, i) {
        EnqueuedIsSent(s, i, trace);
      } else {
        hide Enqueues, AdvanceSend;
        KeptPhase(s, e, i);
        if s.sends[i].phase.Done? && s.sends[i].phase.where.Live? {
          SentGrows(trace, SessionStep(s, e), s.sends[i].phase.where.generation);
        }
      }
    }
  }

  lemma {:induction false} LiveWasSent(es: seq<Step>, i: nat)
    ensures LiveIn(Run(es), Trace(es), i)
    decreases |es|
  {
    hide Do, SessionStep;
    if es == [] {
      assert LiveIn(Run([]), Trace([]), i);
    } else {
      hide LiveIn;
      var front, e := es[..|es| - 1], es[|es| - 1];
      LiveWasSent(front, i);
      SessionsFollowTrace(front);
      LiveStep(Run(front), e, Trace(front), i);
    }
  }

  lemma KeptPhase(s: State, e: Step, i: nat)
    requires i < |s.sends| && !Enqueues(s, e, i)
    ensures i < |Do(s, e).sends| && Do(s, e).sends[i].msg == s.sends[i].msg
    ensures var p := Do(s, e).sends[i].phase; p.Done? && p.where.Live? ==> p == s.sends[i].phase
  {}

  /** A send acknowledged as delivered is in the channel of the generation that was online: taken by
      its writer, or still buffered there. */
  lemma DeliveredIsInChannel(es: seq<Step>, i: nat)
    requires i < |Run(es).sends| && Run(es).sends[i].phase.Done? && Run(es).sends[i].phase.where.Live?
    ensures var g := Run(es).sends[i].phase.where.generation;
            var m := Run(es).sends[i].msg;
            m in Session.Delivered(Trace(es), g) || m in Session.Buffered(Run(es).sessions, g)
  {
    LiveWasSent(es, i);
    SessionsFollowTrace(es);
    Session.DeliveredInOrder(Trace(es), Run(es).sends[i].phase.where.generation);
  }

  // ---------- conservation of the offline queue ----------

  /** Everything stored for u during es, in order. */
  function Stored(es: seq<Step>, u: UserId): seq<Envelope> {
    if es == [] then [] else
      var front, e := es[..|es| - 1], es[|es| - 1];
      var s := Run(front);
      if e.Advance? && Stores(s, e, e.send) && s.sends[e.send].to == u
      then Stored(front, u) + [s.sends[e.send].msg] else Stored(front, u)
  }

  /** Everything u fetched during es: the answers of its fetches one after another. */
  function Fetched(es: seq<Step>, u: UserId): seq<Envelope> {
    if es == [] then [] else
      var front, e := es[..|es| - 1], es[|es| - 1];
      if e == Fetch(u) then Fetched(front, u) + QueueOf(Run(front).table, u) else Fetched(front, u)
  }

  lemma QueueStep(s: State, e: Step, u: UserId)
    ensures QueueOf(Do(s, e).table, u) ==
            if e.Advance? && Stores(s, e, e.send) && s.sends[e.send].to == u
            then QueueOf(s.table, u) + [s.sends[e.send].msg]
            else if e == Fetch(u) then [] else QueueOf(s.table, u)
  {
    match e
    case Advance(i) =>
      if Stores(s, e, i) {
        QueueAppend(s.table, Row(s.sends[i].to, s.sends[i].msg), u);
      }
    case Fetch(v) => ClearedQueues(s.table, v, u);
    case _ =>
  }

  /** Per recipient, in every run: what was stored is what was fetched followed by what is still
      queued, in order; and the queue never holds more than 1000 messages. */
  lemma {:induction false} StoredIsFetchedOrQueued(es: seq<Step>, u: UserId)
    ensures Stored(es, u) == Fetched(es, u) + QueueOf(Run(es).table, u)
    ensures |QueueOf(Run(es).table, u)| <= OFFLINE_MAX
    decreases |es|
  {
    if es != [] {
      hide Do, QueueOf;
      var front, e := es[..|es| - 1], es[|es| - 1];
      StoredIsFetchedOrQueued(front, u);
      QueueStep(Run(front), e, u);
    }
  }
}
