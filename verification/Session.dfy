/** Online sessions: generation tokens, bounded channels, and the manager's map under its lock.

    Each lock-protected operation and each channel receive is one step; a run is any sequence of
    steps of any connections. Closing a closed channel and sending on a closed channel panic. */
module Session {
  import GroupModel

  type UserId = GroupModel.UserId
  type Envelope = string

  const QUEUE_BUFFER_SIZE: nat := 256

  // ---------- the state and its steps ----------

  datatype Chan = Chan(buf: seq<Envelope>, closed: bool)

  /** users holds each online user's generation; generation g has channel chans[g - 1], so the
      sequence counter is |chans|. */
  datatype State = State(users: map<UserId, nat>, chans: seq<Chan>, panicked: bool)

  datatype Step =
    | Connect(user: UserId)
    | Disconnect(user: UserId, generation: nat)
    | Enqueue(user: UserId, msg: Envelope)
    | Receive(generation: nat)

  datatype Answer =
    | Issued(generation: nat) | WentOffline(really: bool) | Queued(ok: bool) | Got(msg: Envelope) | Closed | Blocked

  predicate HasChan(s: State, g: nat) {
    1 <= g <= |s.chans|
  }

  predicate Open(s: State, g: nat) {
    HasChan(s, g) && !s.chans[g - 1].closed
  }

  predicate Current(s: State, u: UserId, g: nat) {
    u in s.users && s.users[u] == g
  }

  function CloseChan(s: State, g: nat): State {
    if !Open(s, g) then s.(panicked := true)
    else s.(chans := s.chans[g - 1 := s.chans[g - 1].(closed := true)])
  }

  function SetOnline(s: State, u: UserId): State {
    var freed := if u in s.users then CloseChan(s, s.users[u]) else s;
    freed.(users := freed.users[u := |s.chans| + 1], chans := freed.chans + [Chan([], false)])
  }

  function SetOffline(s: State, u: UserId, g: nat): State {
    if Current(s, u, g) then CloseChan(s, g).(users := s.users - {u}) else s
  }

  predicate Accepts(s: State, u: UserId) {
    u in s.users && Open(s, s.users[u]) && |s.chans[s.users[u] - 1].buf| < QUEUE_BUFFER_SIZE
  }

  function EnqueueMessage(s: State, u: UserId, m: Envelope): State {
    if u !in s.users then s
    else
      var g := s.users[u];
      if !Open(s, g) then s.(panicked := true)
      else if |s.chans[g - 1].buf| >= QUEUE_BUFFER_SIZE then s
      else s.(chans := s.chans[g - 1 := s.chans[g - 1].(buf := s.chans[g - 1].buf + [m])])
  }

  function Take(s: State, g: nat): (State, Answer) {
    if !HasChan(s, g) then (s, Blocked)
    else if s.chans[g - 1].buf != [] then
      (s.(chans := s.chans[g - 1 := s.chans[g - 1].(buf := s.chans[g - 1].buf[1..])]), Got(s.chans[g - 1].buf[0]))
    else if s.chans[g - 1].closed then (s, Closed)
    else (s, Blocked)
  }

  function Do(s: State, e: Step): (State, Answer) {
    match e
    case Connect(u) => (SetOnline(s, u), Issued(|s.chans| + 1))
    case Disconnect(u, g) => (SetOffline(s, u, g), WentOffline(Current(s, u, g)))
    case Enqueue(u, m) => (EnqueueMessage(s, u, m), Queued(Accepts(s, u)))
    case Receive(g) => Take(s, g)
  }

  function Run(es: seq<Step>): State {
    if es == [] then State(map[], [], false) else Do(Run(es[..|es| - 1]), es[|es| - 1]).0
  }

  /** What step k of the run was answered. */
  function AnswerAt(es: seq<Step>, k: nat): Answer
    requires k < |es|
  {
    Do(Run(es[..k]), es[k]).1
  }

  // ---------- no panic ----------

  /** A channel is open exactly while some user's current session uses it, and it is nobody else's. */
  ghost predicate Wf(s: State) {
    && !s.panicked
    && (forall u | u in s.users :: Open(s, s.users[u]))
    && (forall u, v | u in s.users && v in s.users && s.users[u] == s.users[v] :: u == v)
    && (forall g: nat | Open(s, g) :: exists u :: Current(s, u, g))
    && forall i | 0 <= i < |s.chans| :: |s.chans[i].buf| <= QUEUE_BUFFER_SIZE
  }

  lemma OpenAfterConnect(s: State, u: UserId, g: nat)
    requires u in s.users ==> Open(s, s.users[u])
    ensures Open(SetOnline(s, u), g) <==> g == |s.chans| + 1 || (Open(s, g) && !Current(s, u, g))
  {}

  lemma AfterConnect(s: State, u: UserId)
    requires Wf(s)
    ensures u in s.users ==> Open(s, s.users[u])
    ensures var s' := SetOnline(s, u);
            && !s'.panicked && s'.users == s.users[u := |s.chans| + 1]
            && forall i | 0 <= i < |s'.chans| :: |s'.chans[i].buf| <= QUEUE_BUFFER_SIZE
  {}

  lemma ConnectKeepsWf(s: State, u: UserId)
    requires Wf(s)
    ensures Wf(SetOnline(s, u))
    ensures u in s.users ==> Open(s, s.users[u])
  {
    hide SetOnline;
    var s' := SetOnline(s, u);
    AfterConnect(s, u);
    forall v | v in s'.users ensures Open(s', s'.users[v]) {
      OpenAfterConnect(s, u, s'.users[v]);
    }
    forall g: nat | Open(s', g) ensures exists v :: Current(s', v, g) {
      OpenAfterConnect(s, u, g);
      if g == |s.chans| + 1 {
        assert Current(s', u, g);
      } else {
        var v :| Current(s, v, g);
        assert Current(s', v, g);
      }
    }
  }

  lemma DisconnectKeepsWf(s: State, u: UserId, g: nat)
    requires Wf(s)
    ensures Wf(SetOffline(s, u, g))
    ensures u in s.users ==> Open(s, s.users[u])
  {
    var s' := SetOffline(s, u, g);
    if s' != s {
      forall v | v in s'.users ensures v in s.users && Open(s, s.users[v]) && Open(s', s.users[v]) {}
      forall h: nat | Open(s', h) ensures exists v :: Current(s', v, h) {
        assert Open(s, h);
        var v :| Current(s, v, h);
        assert Current(s', v, h);
      }
    }
  }

  lemma ChannelStepKeepsWf(s: State, g: nat, buf: seq<Envelope>)
    requires Wf(s) && HasChan(s, g) && |buf| <= QUEUE_BUFFER_SIZE
    ensures Wf(s.(chans := s.chans[g - 1 := s.chans[g - 1].(buf := buf)]))
  {
    var s' := s.(chans := s.chans[g - 1 := s.chans[g - 1].(buf := buf)]);
    assert forall h: nat :: Open(s', h) <==> Open(s, h);
    forall h: nat | Open(s', h) ensures exists v :: Current(s', v, h) {
      var v :| Current(s, v, h);
      assert Current(s', v, h);
    }
  }

  lemma EnqueueKeepsWf(s: State, u: UserId, m: Envelope)
    requires Wf(s)
    ensures Wf(EnqueueMessage(s, u, m))
    ensures u in s.users ==> Open(s, s.users[u])
  {
    if Accepts(s, u) {
      ChannelStepKeepsWf(s, s.users[u], s.chans[s.users[u] - 1].buf + [m]);
    }
  }

  lemma StepKeepsWf(s: State, e: Step)
    requires Wf(s)
    ensures Wf(Do(s, e).0)
  {
    match e
    case Connect(u) => ConnectKeepsWf(s, u);
    case Disconnect(u, g) => DisconnectKeepsWf(s, u, g);
    case Enqueue(u, m) => EnqueueKeepsWf(s, u, m);
    case Receive(g) =>
      if HasChan(s, g) && s.chans[g - 1].buf != [] { ChannelStepKeepsWf(s, g, s.chans[g - 1].buf[1..]); }
  }

  /** In every run no channel is closed twice and nothing is sent on a closed channel; the open
      channels are exactly those of the users online, and none holds more than 256 messages. */
  lemma {:induction false} NeverPanics(es: seq<Step>)
    ensures Wf(Run(es))
    decreases |es|
  {
    if es != [] {
      NeverPanics(es[..|es| - 1]);
      StepKeepsWf(Run(es[..|es| - 1]), es[|es| - 1]);
    }
  }

  // ---------- what a run says about a session, without looking at the state ----------

  /** The number of connects in es: the last generation issued. */
  function Connects(es: seq<Step>): nat {
    if es == [] then 0 else Connects(es[..|es| - 1]) + if es[|es| - 1].Connect? then 1 else 0
  }

  /** Step i issues generation g to u. */
  predicate Opens(es: seq<Step>, i: int, u: UserId, g: nat) {
    0 <= i < |es| && es[i] == Connect(u) && Connects(es[..i]) + 1 == g
  }

  /** e replaces or ends generation g of u. */
  predicate Ends(e: Step, u: UserId, g: nat) {
    e == Connect(u) || e == Disconnect(u, g)
  }

  /** g was issued to u in es and no later step replaced or ended it. */
  ghost predicate Live(es: seq<Step>, u: UserId, g: nat) {
    exists i :: Opens(es, i, u, g) && forall j | i < j < |es| :: !Ends(es[j], u, g)
  }

  lemma {:induction false} SequenceCountsConnects(es: seq<Step>)
    ensures |Run(es).chans| == Connects(es)
    decreases |es|
  {
    if es != [] {
      SequenceCountsConnects(es[..|es| - 1]);
    }
  }

  lemma OpensInFront(front: seq<Step>, e: Step, i: int, u: UserId, g: nat)
    ensures i < |front| ==> (Opens(front + [e], i, u, g) <==> Opens(front, i, u, g))
    ensures i == |front| ==> (Opens(front + [e], i, u, g) <==> e == Connect(u) && g == Connects(front) + 1)
  {
    if 0 <= i <= |front| {
      assert (front + [e])[..i] == front[..i];
      assert front[..|front|] == front;
    }
  }

  lemma {:induction false} OpenedBefore(es: seq<Step>, i: int, u: UserId, g: nat)
    requires Opens(es, i, u, g)
    ensures 1 <= g <= Connects(es)
    decreases |es|
  {
    var front, e := es[..|es| - 1], es[|es| - 1];
    assert es == front + [e];
    OpensInFront(front, e, i, u, g);
    if i < |front| {
      OpenedBefore(front, i, u, g);
    }
  }

  lemma LiveExtends(front: seq<Step>, e: Step, u: UserId, g: nat)
    ensures Live(front + [e], u, g) <==>
            (e == Connect(u) && g == Connects(front) + 1) || (Live(front, u, g) && !Ends(e, u, g))
  {
    var es := front + [e];
    if Live(es, u, g) {
      var i :| Opens(es, i, u, g) && forall j | i < j < |es| :: !Ends(es[j], u, g);
      OpensInFront(front, e, i, u, g);
      if i < |front| {
        assert !Ends(es[|front|], u, g);
        assert forall j | i < j < |front| :: es[j] == front[j];
      }
    }
    if e == Connect(u) && g == Connects(front) + 1 {
      OpensInFront(front, e, |front|, u, g);
    }
    if Live(front, u, g) && !Ends(e, u, g) {
      var i :| Opens(front, i, u, g) && forall j | i < j < |front| :: !Ends(front[j], u, g);
      OpensInFront(front, e, i, u, g);
      assert forall j | i < j < |es| :: if j < |front| then es[j] == front[j] else es[j] == e;
    }
  }

  lemma CurrentStep(s: State, e: Step, u: UserId, g: nat)
    requires Wf(s)
    ensures Current(Do(s, e).0, u, g) <==>
            (e == Connect(u) && g == |s.chans| + 1) || (Current(s, u, g) && !Ends(e, u, g))
  {}

  /** The session map holds generation g for u exactly when the run issued g to u and nothing since
      replaced or ended it. */
  lemma {:induction false} CurrentIffLive(es: seq<Step>, u: UserId, g: nat)
    ensures Current(Run(es), u, g) <==> Live(es, u, g)
    decreases |es|
  {
    hide Wf, Live, Do;
    if es == [] {
      assert !Live(es, u, g) by { NeverLive(u, g); }
    } else {
      var front, e := es[..|es| - 1], es[|es| - 1];
      assert es == front + [e];
      CurrentIffLive(front, u, g);
      LiveExtends(front, e, u, g);
      SequenceCountsConnects(front);
      NeverPanics(front);
      CurrentStep(Run(front), e, u, g);
    }
  }

  lemma NeverLive(u: UserId, g: nat)
    ensures !Live([], u, g)
  {}

  lemma {:induction false} ConnectsGrow(es: seq<Step>, i: nat, j: nat)
    requires i <= j <= |es|
    ensures Connects(es[..i]) <= Connects(es[..j])
    decreases j - i
  {
    if i < j {
      ConnectsGrow(es, i, j - 1);
      assert es[..j][..j - 1] == es[..j - 1];
    }
  }

  lemma OneMoreConnect(es: seq<Step>, i: nat)
    requires i < |es| && es[i].Connect?
    ensures Connects(es[..i + 1]) == Connects(es[..i]) + 1
  {
    assert es[..i + 1][..i] == es[..i];
  }

  /** A generation is issued once, to one user. */
  lemma OpenedOnce(es: seq<Step>, i: int, u: UserId, j: int, v: UserId, g: nat)
    requires Opens(es, i, u, g) && Opens(es, j, v, g)
    ensures i == j && u == v
  {
    OneMoreConnect(es, i);
    OneMoreConnect(es, j);
    if i < j {
      ConnectsGrow(es, i + 1, j);
    } else if j < i {
      ConnectsGrow(es, j + 1, i);
    }
  }

  lemma OpenIffLive(es: seq<Step>, i: int, u: UserId, g: nat)
    requires Opens(es, i, u, g)
    ensures HasChan(Run(es), g)
    ensures Open(Run(es), g) <==> Live(es, u, g)
  {
    hide Run, Live;
    OpenedBefore(es, i, u, g);
    SequenceCountsConnects(es);
    NeverPanics(es);
    CurrentIffLive(es, u, g);
    if Open(Run(es), g) {
      var v :| Current(Run(es), v, g);
      CurrentIffLive(es, v, g);
      LiveWasOpened(es, v, g, i, u);
    }
  }

  lemma LiveWasOpened(es: seq<Step>, v: UserId, g: nat, i: int, u: UserId)
    requires Live(es, v, g) && Opens(es, i, u, g)
    ensures u == v
    ensures forall j | i < j < |es| :: !Ends(es[j], u, g)
  {
    var k :| Opens(es, k, v, g) && forall j | k < j < |es| :: !Ends(es[j], v, g);
    OpenedOnce(es, i, u, k, v, g);
  }

  /** The channel issued to u at step i is closed exactly when a later step is a connect of u or the
      disconnect of that very generation. */
  lemma ClosedIffReplacedOrEnded(es: seq<Step>, i: int, u: UserId, g: nat)
    requires Opens(es, i, u, g)
    ensures HasChan(Run(es), g)
    ensures Run(es).chans[g - 1].closed <==> exists j :: i < j < |es| && Ends(es[j], u, g)
  {
    hide Run, Opens;
    OpenIffLive(es, i, u, g);
    if Live(es, u, g) {
      LiveWasOpened(es, u, g, i, u);
    }
  }

  /** A disconnect reports a real departure exactly when its generation is live; otherwise it changes
      nothing. */
  lemma OfflineIffLive(es: seq<Step>, k: nat)
    requires k < |es| && es[k].Disconnect?
    ensures AnswerAt(es, k) == WentOffline(Live(es[..k], es[k].user, es[k].generation))
    ensures !Live(es[..k], es[k].user, es[k].generation) ==> Do(Run(es[..k]), es[k]).0 == Run(es[..k])
  {
    CurrentIffLive(es[..k], es[k].user, es[k].generation);
  }

  /** No generation is reported offline twice. */
  lemma OfflineAtMostOnce(es: seq<Step>, j: nat, k: nat)
    requires j < |es| && k < |es| && es[j].Disconnect? && es[k].Disconnect?
    requires es[j].generation == es[k].generation
    requires AnswerAt(es, j) == AnswerAt(es, k) == WentOffline(true)
    ensures j == k
  {
    OfflineIffLive(es, j);
    OfflineIffLive(es, k);
    if j < k {
      EndedStaysEnded(es, j, k);
    } else if k < j {
      EndedStaysEnded(es, k, j);
    }
  }

  lemma EndedStaysEnded(es: seq<Step>, j: nat, k: nat)
    requires j < k < |es| && es[j].Disconnect? && es[k].Disconnect? && es[j].generation == es[k].generation
    requires Live(es[..j], es[j].user, es[j].generation)
    ensures !Live(es[..k], es[k].user, es[k].generation)
  {
    var u, v, g := es[j].user, es[k].user, es[j].generation;
    if Live(es[..k], v, g) {
      var a :| Opens(es[..j], a, u, g) && forall x | a < x < j :: !Ends(es[..j][x], u, g);
      var b :| Opens(es[..k], b, v, g) && forall x | b < x < k :: !Ends(es[..k][x], v, g);
      assert es[..j][..a] == es[..k][..a];
      assert Opens(es[..k], a, u, g);
      OpenedOnce(es[..k], a, u, b, v, g);
      assert Ends(es[..k][j], v, g);
    }
  }

  // ---------- delivery ----------

  /** The messages accepted into generation g's channel during es, in order. */
  function Sent(es: seq<Step>, g: nat): seq<Envelope> {
    if es == [] then [] else
      var front, e := es[..|es| - 1], es[|es| - 1];
      if e.Enqueue? && Accepts(Run(front), e.user) && Current(Run(front), e.user, g)
      then Sent(front, g) + [e.msg] else Sent(front, g)
  }

  /** The messages the writer of generation g took during es, in order. */
  function Delivered(es: seq<Step>, g: nat): seq<Envelope> {
    if es == [] then [] else
      var front, e := es[..|es| - 1], es[|es| - 1];
      if e == Receive(g) && Do(Run(front), e).1.Got?
      then Delivered(front, g) + [Do(Run(front), e).1.msg] else Delivered(front, g)
  }

  function Buffered(s: State, g: nat): seq<Envelope> {
    if HasChan(s, g) then s.chans[g - 1].buf else []
  }

  lemma DeliveryStep(s: State, e: Step, g: nat)
    requires Wf(s)
    ensures var o := Do(s, e);
            if e.Enqueue? && Accepts(s, e.user) && Current(s, e.user, g)
            then Buffered(o.0, g) == Buffered(s, g) + [e.msg]
            else if e == Receive(g) && o.1.Got? then Buffered(s, g) == [o.1.msg] + Buffered(o.0, g)
            else Buffered(o.0, g) == Buffered(s, g)
  {}

  lemma NothingBuffered(g: nat)
    ensures Buffered(Run([]), g) == []
  {}

  lemma BufferBounded(s: State, g: nat)
    requires Wf(s)
    ensures |Buffered(s, g)| <= QUEUE_BUFFER_SIZE
  {}

  /** Per generation, in every run: what was accepted is what was taken followed by what is still
      buffered, in order: nothing lost, duplicated or reordered, closed channel or not. */
  lemma {:induction false} DeliveredInOrder(es: seq<Step>, g: nat)
    ensures Sent(es, g) == Delivered(es, g) + Buffered(Run(es), g)
    ensures |Buffered(Run(es), g)| <= QUEUE_BUFFER_SIZE
    decreases |es|
  {
    hide Wf, Do, Accepts, Current, Buffered;
    if es == [] {
      NothingBuffered(g);
    } else {
      var front, e := es[..|es| - 1], es[|es| - 1];
      DeliveredInOrder(front, g);
      NeverPanics(front);
      DeliveryStep(Run(front), e, g);
    }
    NeverPanics(es);
    BufferBounded(Run(es), g);
  }

  lemma ClosedStep(s: State, e: Step, g: nat)
    requires Wf(s) && HasChan(s, g) && s.chans[g - 1].closed
    ensures !(e.Enqueue? && Current(s, e.user, g))
    ensures HasChan(Do(s, e).0, g) && Do(s, e).0.chans[g - 1].closed
  {
    if e.Enqueue? && e.user in s.users {
      assert Open(s, s.users[e.user]);
    }
  }

  /** Nothing is accepted into a channel once it is closed, and it is never opened again. */
  lemma NothingSentAfterClosing(es: seq<Step>, e: Step, g: nat)
    requires HasChan(Run(es), g) && Run(es).chans[g - 1].closed
    ensures Sent(es + [e], g) == Sent(es, g)
    ensures HasChan(Run(es + [e]), g) && Run(es + [e]).chans[g - 1].closed
  {
    hide Wf, Do;
    assert (es + [e])[..|es|] == es;
    NeverPanics(es);
    ClosedStep(Run(es), e, g);
  }

  // ---------- what is accepted and what is received ----------

  lemma AcceptsMeans(s: State, u: UserId)
    requires Wf(s)
    ensures Accepts(s, u) <==> exists g: nat :: Current(s, u, g) && |Buffered(s, g)| < 256
  {
    if u in s.users {
      assert Open(s, s.users[u]) && Current(s, u, s.users[u]);
    }
  }

  /** In every run a message for u is accepted exactly when u has a live session of which fewer than 256
      accepted messages are still to be received. */
  lemma AcceptedIffLiveWithRoom(es: seq<Step>, k: nat)
    requires k < |es| && es[k].Enqueue?
    ensures AnswerAt(es, k) == Queued(true) <==>
            exists g: nat :: Live(es[..k], es[k].user, g) && |Sent(es[..k], g)| < |Delivered(es[..k], g)| + 256
  {
    hide Run, Live, Wf, Accepts, Buffered;
    var s, u := Run(es[..k]), es[k].user;
    NeverPanics(es[..k]);
    AcceptsMeans(s, u);
    forall g: nat ensures Current(s, u, g) <==> Live(es[..k], u, g)
                  ensures |Buffered(s, g)| < 256 <==> |Sent(es[..k], g)| < |Delivered(es[..k], g)| + 256 {
      CurrentIffLive(es[..k], u, g);
      DeliveredInOrder(es[..k], g);
    }
  }

  lemma TakeMeans(s: State, g: nat)
    ensures var a := Take(s, g).1;
            && (a.Got? <==> Buffered(s, g) != [])
            && (a.Got? ==> a.msg == Buffered(s, g)[0])
            && (a == Closed <==> Buffered(s, g) == [] && HasChan(s, g) && s.chans[g - 1].closed)
            && (!a.Got? && a != Closed ==> a == Blocked)
  {}

  /** In every run a writer gets the first accepted message it has not received yet, also after its channel
      was closed; it learns of the closing exactly when it has received everything, and waits otherwise. */
  lemma ReceivesNextUntilEmpty(es: seq<Step>, k: nat, g: nat)
    requires k < |es| && es[k] == Receive(g)
    ensures var sent, got := Sent(es[..k], g), |Delivered(es[..k], g)|;
            && got <= |sent|
            && (if got < |sent| then AnswerAt(es, k) == Got(sent[got])
                else if HasChan(Run(es[..k]), g) && Run(es[..k]).chans[g - 1].closed then AnswerAt(es, k) == Closed
                else AnswerAt(es, k) == Blocked)
  {
    hide Run, Take, Buffered;
    DeliveredInOrder(es[..k], g);
    TakeMeans(Run(es[..k]), g);
  }
}
