/** The offline_messages table, and the tail of the direct-message handler over it and the session
    manager. */
module DirectDelivery {
  import opened DirectMessages
  import opened SessionManager
  import Session

  class OfflineStore {
    var table: seq<Row>

    constructor ()
      ensures table == []
    {
      table := [];
    }

    /** How many messages are queued for u. */
    method CountFor(u: UserId) returns (n: nat)
      ensures n == |QueueOf(table, u)|
    {
      n := 0;
      for i := 0 to |table|
        invariant n == |QueueOf(table[..i], u)|
      {
        assert table[..i + 1] == table[..i] + [table[i]];
        QueueAppend(table[..i], table[i], u);
        if table[i].recipient == u {
          n := n + 1;
        }
      }
      assert table[..|table|] == table;
    }

    method PushOfflineMsg(u: UserId, msg: Envelope) returns (ok: bool)
      modifies this
      ensures ok == (|QueueOf(old(table), u)| < OFFLINE_MAX)
      ensures table == if ok then old(table) + [Row(u, msg)] else old(table)
    {
      var count := CountFor(u);
      if count >= OFFLINE_MAX {
        return false;
      }
      table := table + [Row(u, msg)];
      return true;
    }

    /** One transaction: the rows are read in id order, then deleted. */
    method FetchAndClearOfflineMsgs(u: UserId) returns (msgs: seq<Envelope>)
      modifies this
      ensures msgs == QueueOf(old(table), u)
      ensures table == Cleared(old(table), u)
    {
      msgs := [];
      var left: seq<Row> := [];
      for i := 0 to |table|
        invariant table == old(table)
        invariant msgs == QueueOf(table[..i], u) && left == Cleared(table[..i], u)
      {
        assert table[..i + 1][..i] == table[..i];
        if table[i].recipient == u {
          msgs := msgs + [table[i].msg];
        } else {
          left := left + [table[i]];
        }
      }
      assert table[..|table|] == table;
      table := left;
    }
  }

  /** Send 0 of s taken to its end with nothing in between. */
  function Finished(s: State): State
    requires |s.sends| == 1
  {
    AdvanceSend(AdvanceSend(AdvanceSend(s, 0), 0), 0)
  }

  /** A send that is alone. */
  function Alone(sessions: Session.State, table: seq<Row>, to: UserId, msg: Envelope, phase: Phase): State {
    State(sessions, table, [Send(to, msg, phase)])
  }

  /** A turn of send i is the same whatever other sends there are, and leaves them as they are. */
  lemma TurnIsItsOwn(s: State, i: nat)
    requires i < |s.sends|
    ensures var send := s.sends[i];
            var one := AdvanceSend(Alone(s.sessions, s.table, send.to, send.msg, send.phase), 0);
            AdvanceSend(s, i) == State(one.sessions, one.table, s.sends[i := one.sends[0]])
  {
    hide Session.EnqueueMessage, Session.Accepts, QueueOf;
    assert s.sends[i := s.sends[i]] == s.sends;
  }

  lemma DoneStays(sessions: Session.State, table: seq<Row>, to: UserId, msg: Envelope, phase: Phase)
    requires phase.Done?
    ensures AdvanceSend(Alone(sessions, table, to, msg, phase), 0) == Alone(sessions, table, to, msg, phase)
  {}

  /** First turn: is the recipient online? */
  method Look(sessions: Manager, offline: OfflineStore, to: UserId, msg: Envelope) returns (next: Phase)
    requires sessions.Valid()
    ensures Alone(sessions.view, offline.table, to, msg, next) ==
            AdvanceSend(Alone(sessions.view, offline.table, to, msg, Checking), 0)
    ensures next == Enqueuing || next == Storing
  {
    sessions.LinkedMeans();
    hide Session.Wf, Manager.Linked, QueueOf;
    var online := sessions.IsOnline(to);
    next := if online then Enqueuing else Storing;
  }

  lemma EnqueueTurn(s: Session.State, table: seq<Row>, to: UserId, msg: Envelope)
    ensures AdvanceSend(Alone(s, table, to, msg, Enqueuing), 0) ==
            Alone(Session.EnqueueMessage(s, to, msg), table, to, msg,
                  if Session.Accepts(s, to) then Done(Live(s.users[to])) else Storing)
    ensures Session.Accepts(s, to) ==> to in s.users
  {
    hide Session.EnqueueMessage, QueueOf;
  }

  /** Second turn: the live channel, if there still is one with room. */
  method TryChannel(sessions: Manager, offline: OfflineStore, to: UserId, msg: Envelope) returns (next: Phase)
    requires sessions.Valid()
    modifies sessions, sessions.made
    ensures sessions.Valid()
    ensures Alone(sessions.view, offline.table, to, msg, next) ==
            AdvanceSend(Alone(old(sessions.view), offline.table, to, msg, Enqueuing), 0)
    ensures next == Storing || (next.Done? && next.where.Live?)
  {
    sessions.LinkedMeans();
    EnqueueTurn(sessions.view, offline.table, to, msg);
    hide Session.Wf, Manager.Linked, Session.Accepts, Session.EnqueueMessage, AdvanceSend;
    var generation := if to in sessions.users then sessions.users[to].generation else 0;
    var enqueued := sessions.EnqueueMessage(to, msg);
    next := if enqueued then Done(Live(generation)) else Storing;
  }

  /** Third turn: the offline queue, unless it is full. */
  method StoreOffline(sessions: Manager, offline: OfflineStore, to: UserId, msg: Envelope) returns (next: Phase)
    modifies offline
    ensures Alone(sessions.view, offline.table, to, msg, next) ==
            AdvanceSend(Alone(sessions.view, old(offline.table), to, msg, Storing), 0)
    ensures next == Done(Offline) || next == Done(QueueFull)
  {
    hide QueueOf;
    var pushed := offline.PushOfflineMsg(to, msg);
    next := Done(if pushed then Offline else QueueFull);
  }

  /** The turns one after another with nothing in between: the answer says delivered exactly when the
      message went into the channel. */
  method DeliverMessage(sessions: Manager, offline: OfflineStore, to: UserId, msg: Envelope) returns (where: Where)
    requires sessions.Valid()
    modifies sessions, sessions.made, offline
    ensures sessions.Valid()
    ensures Alone(sessions.view, offline.table, to, msg, Done(where)) ==
            Finished(Alone(old(sessions.view), old(offline.table), to, msg, Checking))
  {
    hide Session.Wf, Manager.Linked, AdvanceSend;
    var phase := Look(sessions, offline, to, msg);
    if phase == Enqueuing {
      phase := TryChannel(sessions, offline, to, msg);
      if phase.Done? {
        DoneStays(sessions.view, offline.table, to, msg, phase);
        return phase.where;
      }
    }
    phase := StoreOffline(sessions, offline, to, msg);
    DoneStays(sessions.view, offline.table, to, msg, phase);
    where := phase.where;
  }
}
