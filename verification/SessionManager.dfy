/** The session manager: the map of online users and their channels, updated in place under the lock
    and proved to follow the steps of Session; the ghost view is the state as a value. */
module SessionManager {
  import opened Session

  class Channel {
    var buf: seq<Envelope>
    var closed: bool

    constructor ()
      ensures buf == [] && !closed
    {
      buf, closed := [], false;
    }

    /** Closing twice panics: callers must show that they do not. */
    method Close()
      requires !closed
      modifies this
      ensures closed && buf == old(buf)
    {
      closed := true;
    }

    /** A send that does not wait: a full buffer refuses the message; a closed channel would panic. */
    method TrySend(m: Envelope) returns (ok: bool)
      requires !closed
      modifies this
      ensures ok == (|old(buf)| < QUEUE_BUFFER_SIZE)
      ensures buf == (if ok then old(buf) + [m] else old(buf)) && !closed
    {
      ok := |buf| < QUEUE_BUFFER_SIZE;
      if ok {
        buf := buf + [m];
      }
    }

    method Next() returns (a: Answer)
      modifies this
      ensures closed == old(closed)
      ensures old(buf) != [] ==> a == Got(old(buf)[0]) && buf == old(buf)[1..]
      ensures old(buf) == [] ==> a == (if closed then Closed else Blocked) && buf == []
    {
      if buf != [] {
        a, buf := Got(buf[0]), buf[1..];
      } else if closed {
        a := Closed;
      } else {
        a := Blocked;
      }
    }
  }

  datatype UserState = UserState(generation: nat, ch: Channel)

  ghost predicate Holds(ch: Channel, c: Chan)
    reads ch
  {
    ch.buf == c.buf && ch.closed == c.closed
  }

  predicate Distinct(made: seq<Channel>) {
    forall i, j | 0 <= i < j < |made| :: made[i] != made[j]
  }

  /** Each session has its generation and that generation's channel. */
  predicate Sessions(users: map<UserId, UserState>, generations: map<UserId, nat>, made: seq<Channel>) {
    && users.Keys == generations.Keys
    && forall u | u in users ::
         && users[u].generation == generations[u]
         && 1 <= generations[u] <= |made| && users[u].ch == made[generations[u] - 1]
  }

  lemma ChannelOf(users: map<UserId, UserState>, generations: map<UserId, nat>, made: seq<Channel>, u: UserId)
    requires Sessions(users, generations, made) && u in users
    ensures u in generations && 1 <= generations[u] <= |made| && users[u].ch == made[generations[u] - 1]
  {}

  lemma OneMoreSession(users: map<UserId, UserState>, generations: map<UserId, nat>, made: seq<Channel>, u: UserId,
        ch: Channel)
    requires Sessions(users, generations, made) && Distinct(made) && ch !in made
    ensures Sessions(users[u := UserState(|made| + 1, ch)], generations[u := |made| + 1], made + [ch])
    ensures Distinct(made + [ch])
  {}

  lemma OneSessionLess(users: map<UserId, UserState>, generations: map<UserId, nat>, made: seq<Channel>, u: UserId)
    requires Sessions(users, generations, made)
    ensures Sessions(users - {u}, generations - {u}, made)
  {}

  class Manager {
    var users: map<UserId, UserState>
    var sequence: nat

    /** Every channel ever issued, by generation, and the state as a value. */
    ghost var made: seq<Channel>
    ghost var view: State

    /** The fields and the channels hold what the value says. */
    ghost predicate Linked()
      reads this, made
    {
      && sequence == |made| == |view.chans|
      && Distinct(made)
      && (forall i | 0 <= i < |made| :: Holds(made[i], view.chans[i]))
      && Sessions(users, view.users, made)
    }

    ghost predicate Valid()
      reads this, made
    {
      Wf(view) && Linked()
    }

    lemma LinkedMeans()
      requires Linked()
      ensures sequence == |made| == |view.chans| && users.Keys == view.users.Keys
      ensures forall u | u in users :: users[u].generation == view.users[u]
    {}

    constructor ()
      ensures Valid() && view == Run([]) && made == []
    {
      users, sequence := map[], 0;
      made, view := [], State(map[], [], false);
    }

    /** Closes the channel of u's current session. */
    method CloseCurrent(u: UserId)
      requires Linked() && u in users && Open(view, view.users[u])
      modifies this`view, made
      ensures Linked() && view == CloseChan(old(view), old(view).users[u])
      ensures sequence == |made| && |view.chans| == |old(view).chans|
    {
      hide Sessions;
      ChannelOf(users, view.users, made, u);
      var ch := users[u].ch;
      ch.Close();
      view := CloseChan(view, view.users[u]);
    }

    /** Gives u a session of the next generation, with a new channel. */
    method Register(u: UserId) returns (ch: Channel)
      requires Linked()
      modifies this
      ensures Linked() && made == old(made) + [ch] && fresh(ch) && sequence == old(sequence) + 1
      ensures view == old(view).(users := old(view).users[u := |old(view).chans| + 1],
                                 chans := old(view).chans + [Chan([], false)])
    {
      hide Sessions, Distinct;
      sequence := sequence + 1;
      ch := new Channel();
      OneMoreSession(users, view.users, made, u, ch);
      users := users[u := UserState(sequence, ch)];
      view := view.(users := view.users[u := |view.chans| + 1], chans := view.chans + [Chan([], false)]);
      made := made + [ch];
    }

    /** Forgets u's session. */
    method Unregister(u: UserId)
      requires Linked()
      modifies this
      ensures Linked() && made == old(made) && view == old(view).(users := old(view).users - {u})
    {
      OneSessionLess(users, view.users, made, u);
      users := users - {u};
      view := view.(users := view.users - {u});
    }

    method SetOnline(u: UserId) returns (ch: Channel, generation: nat)
      requires Valid()
      modifies this, made
      ensures Valid() && made == old(made) + [ch] && fresh(ch)
      ensures view == Session.SetOnline(old(view), u) && generation == |old(made)| + 1
    {
      hide Wf, Linked, Open;
      LinkedMeans();
      ConnectKeepsWf(view, u);
      if u in users {
        CloseCurrent(u);
      }
      ch := Register(u);
      generation := sequence;
    }

    method SetOffline(u: UserId, generation: nat) returns (really: bool)
      requires Valid()
      modifies this, made
      ensures Valid() && made == old(made)
      ensures view == Session.SetOffline(old(view), u, generation) && really == Current(old(view), u, generation)
    {
      hide Wf, Linked, Open;
      LinkedMeans();
      DisconnectKeepsWf(view, u, generation);
      really := u in users && users[u].generation == generation;
      if really {
        CloseCurrent(u);
        Unregister(u);
      }
    }

    function IsOnline(u: UserId): (b: bool)
      requires Valid()
      reads this, made
      ensures b <==> u in view.users
    {
      u in users
    }

    /** Puts m into the channel of u's current session if there is room. */
    method SendCurrent(u: UserId, m: Envelope) returns (ok: bool)
      requires Linked() && u in users && Open(view, view.users[u])
      modifies this`view, made
      ensures Linked() && ok == Accepts(old(view), u)
      ensures view == Session.EnqueueMessage(old(view), u, m)
    {
      hide Sessions;
      ChannelOf(users, view.users, made, u);
      var ch := users[u].ch;
      ok := ch.TrySend(m);
      view := Session.EnqueueMessage(view, u, m);
    }

    method EnqueueMessage(u: UserId, m: Envelope) returns (ok: bool)
      requires Valid()
      modifies this, made
      ensures Valid() && made == old(made)
      ensures view == Session.EnqueueMessage(old(view), u, m) && ok == Accepts(old(view), u)
    {
      hide Wf, Linked, Open;
      LinkedMeans();
      EnqueueKeepsWf(view, u, m);
      if u !in users {
        return false;
      }
      ok := SendCurrent(u, m);
    }

    /** The writer that holds generation's channel takes its next message. */
    method ReceiveFrom(ch: Channel, ghost generation: nat) returns (a: Answer)
      requires Valid() && 1 <= generation <= |made| && ch == made[generation - 1]
      modifies this, made
      ensures Valid() && made == old(made)
      ensures (view, a) == Take(old(view), generation)
    {
      hide Wf, Sessions;
      StepKeepsWf(view, Receive(generation));
      a := ch.Next();
      view := Take(view, generation).0;
    }

    method OnlineIDs(candidates: seq<UserId>) returns (out: set<UserId>)
      requires Valid()
      ensures out == set u | u in candidates && u in view.users
    {
      hide Wf, Linked;
      LinkedMeans();
      out := {};
      for i := 0 to |candidates|
        invariant out == set u | u in candidates[..i] && u in view.users
      {
        if candidates[i] in users {
          out := out + {candidates[i]};
        }
      }
      assert candidates[..|candidates|] == candidates;
    }

    method OnlineSet() returns (out: set<UserId>)
      requires Valid()
      ensures out == view.users.Keys
    {
      hide Wf, Linked;
      LinkedMeans();
      out := {};
      var rest := users.Keys;
      while rest != {}
        invariant rest <= users.Keys && out == users.Keys - rest
        decreases |rest|
      {
        var u :| u in rest;
        out, rest := out + {u}, rest - {u};
      }
    }
  }
}
