/** Group messages sent over a live connection: the send endpoint's checks and append, then one push to
    every other member who is online. */
module GroupPush {
  import opened GroupModel
  import opened GroupRequests
  import opened GroupApi
  import opened SessionManager
  import Session

  predicate Unique(ids: seq<UserId>) {
    forall i, j | 0 <= i < j < |ids| :: ids[i] != ids[j]
  }

  /** The sessions after pushing m to each of ids but the sender, in turn; offline members and full
      queues are passed over. */
  function FanOut(s: Session.State, ids: seq<UserId>, sender: UserId, m: Session.Envelope): Session.State {
    if ids == [] then s else
      var rest, id := FanOut(s, ids[..|ids| - 1], sender, m), ids[|ids| - 1];
      if id == sender then rest else Session.EnqueueMessage(rest, id, m)
  }

  /** What v's live channel holds; nothing for a user who is offline. */
  function Inbox(s: Session.State, v: UserId): seq<Session.Envelope> {
    if v in s.users then Session.Buffered(s, s.users[v]) else []
  }

  lemma PushOne(s: Session.State, id: UserId, m: Session.Envelope, v: UserId)
    requires Session.Wf(s)
    ensures var s' := Session.EnqueueMessage(s, id, m);
            && Session.Wf(s') && s'.users == s.users
            && Inbox(s', v) == Inbox(s, v) + (if v == id && Session.Accepts(s, v) then [m] else [])
            && (v != id ==> (Session.Accepts(s', v) <==> Session.Accepts(s, v)))
  {
    hide Session.Wf;
    Session.EnqueueKeepsWf(s, id, m);
    OwnChannel(s, v, id);
  }

  lemma OwnChannel(s: Session.State, u: UserId, v: UserId)
    requires Session.Wf(s)
    ensures u in s.users ==> Session.Open(s, s.users[u])
    ensures u in s.users && v in s.users && u != v ==> s.users[u] != s.users[v]
  {}

  /** Each other member who is online with room in the queue gets the message once; the sender, members
      who are offline, and everybody else get nothing. */
  lemma {:induction false} FanOutReachesOthersOnce(s: Session.State, ids: seq<UserId>, sender: UserId,
        m: Session.Envelope, v: UserId)
    requires Session.Wf(s) && Unique(ids)
    ensures var s' := FanOut(s, ids, sender, m);
            && Session.Wf(s') && s'.users == s.users
            && Inbox(s', v) == Inbox(s, v) + (if v in ids && v != sender && Session.Accepts(s, v) then [m] else [])
            && (v !in ids ==> (Session.Accepts(s', v) <==> Session.Accepts(s, v)))
    decreases |ids|
  {
    hide Session.Wf, Session.EnqueueMessage, Session.Accepts, Inbox;
    if ids != [] {
      var front, id := ids[..|ids| - 1], ids[|ids| - 1];
      assert ids == front + [id];
      FanOutReachesOthersOnce(s, front, sender, m, v);
      PushOne(FanOut(s, front, sender, m), id, m, v);
    }
  }

  /** The members, each once. */
  method GroupMemberIDs(g: Group) returns (ids: seq<UserId>)
    ensures Unique(ids) && forall u :: u in ids <==> u in g.members
  {
    ids := [];
    var rest := g.members.Keys;
    while rest != {}
      invariant rest <= g.members.Keys
      invariant Unique(ids) && forall u :: u in ids <==> u in g.members.Keys - rest
      decreases |rest|
    {
      var u :| u in rest;
      assert forall i | 0 <= i < |ids| :: ids[i] in ids;
      ids, rest := ids + [u], rest - {u};
    }
  }

  lemma PushNext(s: Session.State, ids: seq<UserId>, n: nat, sender: UserId, m: Session.Envelope)
    requires n < |ids|
    ensures FanOut(s, ids[..n + 1], sender, m) ==
            if ids[n] == sender then FanOut(s, ids[..n], sender, m)
            else Session.EnqueueMessage(FanOut(s, ids[..n], sender, m), ids[n], m)
  {
    assert ids[..n + 1][..n] == ids[..n];
  }

  lemma NobodyOnline(s: Session.State, id: UserId, m: Session.Envelope)
    ensures id !in s.users ==> Session.EnqueueMessage(s, id, m) == s
  {}

  // ---------- the parts of the handler ----------

  /** The checks and the append. */
  method AppendLive(api: Api, gid: GroupId, sender: UserId, epoch: int, msgId: string, body: string, now: int)
    returns (reply: Reply)
    modifies api.st
    ensures sender == "" ==> reply == Refused(Unauthorized) && api.st.groups == old(api.st.groups)
    ensures sender != "" ==>
              var e := Event(Send(sender, epoch, msgId, body), now);
              api.st.groups == After(old(api.st.groups), gid, e) && reply == Answer(old(api.st.groups), gid, e)
  {
    if sender == "" {
      return Refused(Unauthorized);
    }
    reply := api.SendMessage(gid, sender, epoch, msgId, body, now);
  }

  /** One push: nothing to the sender or to a member who is offline or whose queue is full. */
  method PushTo(sessions: Manager, id: UserId, sender: UserId, m: Session.Envelope)
    requires sessions.Valid()
    modifies sessions, sessions.made
    ensures sessions.Valid() && sessions.made == old(sessions.made)
    ensures sessions.view ==
            if id == sender then old(sessions.view) else Session.Do(old(sessions.view), Session.Enqueue(id, m)).0
  {
    hide Session.Wf, Manager.Linked, Session.EnqueueMessage;
    if id != sender {
      NobodyOnline(sessions.view, id, m);
      var online := sessions.IsOnline(id);
      if online {
        var pushed := sessions.EnqueueMessage(id, m);
      }
    }
  }

  // ---------- pushes among other steps ----------

  /** What was accepted for v during ts, by whichever generation of v's was current. */
  function SentTo(ts: seq<Session.Step>, v: UserId): seq<Session.Envelope> {
    if ts == [] then [] else
      var front, e := ts[..|ts| - 1], ts[|ts| - 1];
      if e.Enqueue? && e.user == v && Session.Accepts(Session.Run(front), v)
      then SentTo(front, v) + [e.msg] else SentTo(front, v)
  }

  /** Step k is v's push, and v's current channel has room for it. */
  predicate PushLands(ts: seq<Session.Step>, k: nat, v: UserId, m: Session.Envelope) {
    k < |ts| && ts[k] == Session.Enqueue(v, m) && Session.Accepts(Session.Run(ts[..k]), v)
  }

  /** The steps of other sessions and of other messages may fall anywhere; m is pushed to v once at most. */
  predicate PushedOnce(ts: seq<Session.Step>, v: UserId, m: Session.Envelope) {
    forall j, k | 0 <= j < k < |ts| && ts[j] == Session.Enqueue(v, m) :: ts[k] != Session.Enqueue(v, m)
  }

  lemma LandsBefore(ts: seq<Session.Step>, k: nat, v: UserId, m: Session.Envelope)
    requires k < |ts| - 1
    ensures PushLands(ts, k, v, m) <==> PushLands(ts[..|ts| - 1], k, v, m)
  {
    hide Session.Run, Session.Accepts;
    assert ts[..|ts| - 1][..k] == ts[..k];
  }

  /** With any steps between the pushes (connects, disconnects, receives, other messages) each member gets
      a group message at most once over all its sessions, and gets it exactly when its channel has room at
      the moment of its push. */
  lemma {:induction false} PushReachesAtMostOnce(ts: seq<Session.Step>, v: UserId, m: Session.Envelope)
    requires PushedOnce(ts, v, m)
    ensures multiset(SentTo(ts, v))[m] == if exists k: nat :: PushLands(ts, k, v, m) then 1 else 0
    decreases |ts|
  {
    hide *;
    if ts == [] {
      NothingLands(ts, v, m);
    } else {
      var n := |ts| - 1;
      PushedOnceBefore(ts, v, m);
      PushReachesAtMostOnce(ts[..n], v, m);
      LandsNow(ts, v, m);
      forall k: nat | k < n ensures PushLands(ts, k, v, m) <==> PushLands(ts[..n], k, v, m) {
        LandsBefore(ts, k, v, m);
      }
      forall k: nat ensures PushLands(ts, k, v, m) ==> k <= n
                    ensures PushLands(ts[..n], k, v, m) ==> k < n && !PushLands(ts, n, v, m)
      {
        LandsOnce(ts, k, v, m);
      }
    }
  }

  lemma NothingLands(ts: seq<Session.Step>, v: UserId, m: Session.Envelope)
    requires ts == []
    ensures multiset(SentTo(ts, v))[m] == 0 && forall k: nat :: !PushLands(ts, k, v, m)
  {}

  lemma PushedOnceBefore(ts: seq<Session.Step>, v: UserId, m: Session.Envelope)
    requires ts != [] && PushedOnce(ts, v, m)
    ensures PushedOnce(ts[..|ts| - 1], v, m)
  {}

  lemma LandsNow(ts: seq<Session.Step>, v: UserId, m: Session.Envelope)
    requires ts != []
    ensures multiset(SentTo(ts, v))[m] ==
            multiset(SentTo(ts[..|ts| - 1], v))[m] + if PushLands(ts, |ts| - 1, v, m) then 1 else 0
  {
    hide Session.Run, Session.Accepts;
  }

  lemma LandsOnce(ts: seq<Session.Step>, k: nat, v: UserId, m: Session.Envelope)
    requires ts != [] && PushedOnce(ts, v, m)
    ensures PushLands(ts, k, v, m) ==> k <= |ts| - 1
    ensures PushLands(ts[..|ts| - 1], k, v, m) ==> k < |ts| - 1 && !PushLands(ts, |ts| - 1, v, m)
  {
    hide Session.Run, Session.Accepts;
  }

  // ---------- the whole handler ----------

  /** The parts one after another with nothing in between: refused exactly as the send endpoint refuses,
      with nothing pushed; an accepted message is in the group queue, and is pushed to the members then in
      the group. */
  method HandleGroupMessage(api: Api, sessions: Manager, gid: GroupId, sender: UserId, epoch: int, msgId: string,
                            body: string, push: nat -> Session.Envelope, now: int)
    returns (reply: Reply, ghost ids: seq<UserId>)
    requires sessions.Valid()
    modifies api.st, sessions, sessions.made
    ensures sessions.Valid()
    ensures sender == "" ==> reply == Refused(Unauthorized) && api.st.groups == old(api.st.groups)
    ensures sender != "" ==>
              var e := Event(Send(sender, epoch, msgId, body), now);
              api.st.groups == After(old(api.st.groups), gid, e) && reply == Answer(old(api.st.groups), gid, e)
    ensures reply.AtSeq? ==>
              && Unique(ids) && gid in api.st.groups
              && (forall u :: u in ids <==> u in api.st.groups[gid].members)
              && sessions.view == FanOut(old(sessions.view), ids, sender, push(reply.number))
    ensures !reply.AtSeq? ==> sessions.view == old(sessions.view)
  {
    ids := [];
    reply := AppendLive(api, gid, sender, epoch, msgId, body, now);
    if !reply.AtSeq? {
      return;
    }
    assert gid in api.st.groups;
    var members := GroupMemberIDs(api.st.groups[gid]);
    ids := members;
    PushAll(sessions, members, sender, push(reply.number));
  }

  method PushAll(sessions: Manager, members: seq<UserId>, sender: UserId, m: Session.Envelope)
    requires sessions.Valid()
    modifies sessions, sessions.made
    ensures sessions.Valid() && sessions.made == old(sessions.made)
    ensures sessions.view == FanOut(old(sessions.view), members, sender, m)
  {
    hide Session.Wf, Manager.Linked, Session.EnqueueMessage;
    for n := 0 to |members|
      invariant sessions.Valid() && sessions.made == old(sessions.made)
      invariant sessions.view == FanOut(old(sessions.view), members[..n], sender, m)
    {
      PushNext(old(sessions.view), members, n, sender, m);
      PushTo(sessions, members[n], sender, m);
    }
    assert members[..|members|] == members;
  }
}
