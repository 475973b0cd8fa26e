/** Direct messages sent again: the message id is recorded as used before the message is placed, so the
    cache of ids, not the fate of the message, decides whether a retry gets through. */
module DirectRetry {
  import opened SeenCache
  import DM = DirectMessages
  import Session

  /** A submission with its message id, or any step of the sends, sessions and fetches. */
  datatype Step =
    | Submit(check: Check, to: UserId, msg: Session.Envelope)
    | Other(step: DM.Step)

  datatype State = State(seen: Cache, direct: DM.State)

  /** isReplay lets the submission through. */
  ghost predicate Passes(s: State, check: Check) {
    !Rejects(s.seen, check, false)
  }

  ghost function Do(s: State, e: Step): State {
    match e
    case Submit(check, to, msg) =>
      State(Next(s.seen, check, false), if Passes(s, check) then DM.Do(s.direct, DM.Begin(to, msg)) else s.direct)
    case Other(step) => if step.Begin? then s else s.(direct := DM.Do(s.direct, step))
  }

  ghost function Run(es: seq<Step>): State
    decreases |es|
  {
    if es == [] then State(map[], DM.Run([])) else Do(Run(es[..|es| - 1]), es[|es| - 1])
  }

  // ---------- sends are the submissions that passed ----------

  /** The steps of the direct-message model that a run takes: one Begin for each submission that passed. */
  ghost function Taken(es: seq<Step>): seq<DM.Step>
    decreases |es|
  {
    if es == [] then [] else
      var front, e := es[..|es| - 1], es[|es| - 1];
      Taken(front) +
        match e
        case Submit(check, to, msg) => if Passes(Run(front), check) then [DM.Begin(to, msg)] else []
        case Other(step) => if step.Begin? then [] else [step]
  }

  lemma OneTaken(ds: seq<DM.Step>, d: DM.Step)
    ensures DM.Run(ds + [d]) == DM.Do(DM.Run(ds), d)
  {
    assert (ds + [d])[..|ds|] == ds;
  }

  /** So every run is one of the direct-message model's: what is proved there holds here. */
  lemma {:induction false} RunsAreDirectRuns(es: seq<Step>)
    ensures Run(es).direct == DM.Run(Taken(es))
    decreases |es|
  {
    hide Passes, DM.Do, DM.Run;
    if es != [] {
      var front, e := es[..|es| - 1], es[|es| - 1];
      RunsAreDirectRuns(front);
      assert Taken(front) + [] == Taken(front);
      match e
      case Submit(_, to, msg) => OneTaken(Taken(front), DM.Begin(to, msg));
      case Other(step) => OneTaken(Taken(front), step);
    }
  }

  // ---------- retries ----------

  predicate Known(c: Cache, u: UserId, id: string) {
    u in c && id in c[u]
  }

  predicate SameId(a: Check, b: Check) {
    a.user == b.user && a.id == b.id
  }

  /** Step e makes the cache forget that u used id. */
  ghost predicate Forgets(s: State, e: Step, u: UserId, id: string) {
    e.Submit? && Drops(s.seen, e.check, u, id)
  }

  lemma PassesIffForgotten(s: State, check: Check)
    ensures !Passes(s, check) <==> Known(s.seen, check.user, check.id) && !Drops(s.seen, check, check.user, check.id)
  {
    var u, id := check.user, check.id;
    hide LookedUp, Drops;
    if Known(s.seen, u, id) {
      LookedUpExactly(s.seen, check, id, s.seen[u][id]);
    }
    if id in LookedUp(s.seen, check) {
      LookedUpExactly(s.seen, check, id, LookedUp(s.seen, check)[id]);
    }
  }

  /** e does not use the pair anew. */
  ghost predicate NotUsed(s: State, e: Step, u: UserId, id: string) {
    e.Submit? && e.check.user == u && e.check.id == id ==> !Passes(s, e.check)
  }

  lemma KnownStep(s: State, e: Step, u: UserId, id: string)
    requires NotUsed(s, e, u, id)
    ensures Known(Do(s, e).seen, u, id) <==> Known(s.seen, u, id) && !Forgets(s, e, u, id)
  {
    hide DM.Do, Next, Rejects, Drops;
    if e.Submit? {
      var next := Next(s.seen, e.check, false);
      if Known(s.seen, u, id) {
        NextExactly(s.seen, e.check, u, id, s.seen[u][id]);
      }
      if Known(next, u, id) {
        NextExactly(s.seen, e.check, u, id, next[u][id]);
      }
    }
  }

  lemma PassedIsKnown(s: State, e: Step)
    requires e.Submit? && Passes(s, e.check)
    ensures Known(Do(s, e).seen, e.check.user, e.check.id)
  {
    hide DM.Do, Rejects;
    UseIsHeld(s.seen, e.check, false);
  }

  lemma RunOne(es: seq<Step>, k: nat)
    requires k < |es|
    ensures Run(es[..k + 1]) == Do(Run(es[..k]), es[k])
  {
    assert es[..k + 1][..k] == es[..k];
  }

  /** After the use at step k nothing up to step m uses the pair anew. */
  ghost predicate NotUsedSince(es: seq<Step>, k: nat, m: nat, u: UserId, id: string)
    requires m <= |es|
  {
    forall i | k < i < m :: NotUsed(Run(es[..i]), es[i], u, id)
  }

  ghost predicate ForgottenSince(es: seq<Step>, k: nat, m: nat, u: UserId, id: string)
    requires m <= |es|
  {
    exists i :: k < i < m && Forgets(Run(es[..i]), es[i], u, id)
  }

  lemma {:induction false} KnownUntilForgotten(es: seq<Step>, k: nat, m: nat, u: UserId, id: string)
    requires k < m <= |es| && es[k].Submit? && es[k].check.user == u && es[k].check.id == id
    requires Passes(Run(es[..k]), es[k].check) && NotUsedSince(es, k, m, u, id)
    ensures Known(Run(es[..m]).seen, u, id) <==> !ForgottenSince(es, k, m, u, id)
    decreases m
  {
    hide Do, Run, Passes, Known, Forgets, NotUsed;
    if m == k + 1 {
      RunOne(es, k);
      PassedIsKnown(Run(es[..k]), es[k]);
    } else {
      KnownUntilForgotten(es, k, m - 1, u, id);
      RunOne(es, m - 1);
      assert NotUsed(Run(es[..m - 1]), es[m - 1], u, id);
      KnownStep(Run(es[..m - 1]), es[m - 1], u, id);
      ForgottenMore(es, k, m - 1, u, id);
    }
  }

  lemma ForgottenMore(es: seq<Step>, k: nat, m: nat, u: UserId, id: string)
    requires k < m < |es|
    ensures ForgottenSince(es, k, m + 1, u, id) <==>
            ForgottenSince(es, k, m, u, id) || Forgets(Run(es[..m]), es[m], u, id)
  {
    hide Run, Forgets;
  }

  /** Whatever became of the message submitted at step k (delivered, stored, refused for a full queue, or
      still on its way): the next submission under its id gets through exactly when a sweep or an eviction
      has taken the id since, the sweep and eviction of that submission's own check included. */
  lemma RetryPassesIffForgotten(es: seq<Step>, k: nat, retry: Check)
    requires k < |es| && es[k].Submit? && Passes(Run(es[..k]), es[k].check) && SameId(es[k].check, retry)
    requires NotUsedSince(es, k, |es|, retry.user, retry.id)
    ensures Passes(Run(es), retry) <==>
            ForgottenSince(es, k, |es|, retry.user, retry.id) || Drops(Run(es).seen, retry, retry.user, retry.id)
  {
    hide Run, Passes, Drops, Forgets, Known, NotUsed;
    assert es[..|es|] == es;
    KnownUntilForgotten(es, k, |es|, retry.user, retry.id);
    PassesIffForgotten(Run(es), retry);
  }

  // ---------- a message refused for good ----------

  /** n messages from u, each stored for somebody who is offline. */
  function Backlog(u: UserId, to: UserId, msg: Session.Envelope, n: nat): seq<Step> {
    if n == 0 then [] else
      Backlog(u, to, msg, n - 1) +
        [Submit(Check(u, Id(n - 1), 0, ""), to, msg), Other(DM.Advance(n - 1)), Other(DM.Advance(n - 1))]
  }

  /** n messages are queued for `to`, nobody is online, and n sends are over. */
  ghost predicate Queued(d: DM.State, to: UserId, n: nat) {
    && d.sessions == Session.Run([]) && |d.sends| == n && |DM.QueueOf(d.table, to)| == n
  }

  lemma RunThree(es: seq<Step>, a: Step, b: Step, c: Step)
    ensures Run(es + [a, b, c]) == Do(Do(Do(Run(es), a), b), c)
    ensures Run(es + [a]) == Do(Run(es), a)
  {
    hide Do, Run;
    var all := es + [a, b, c];
    assert all[..|es|] == es && all[..|es| + 3] == all && all[..|es| + 1] == es + [a];
    RunOne(all, |es|);
    RunOne(all, |es| + 1);
    RunOne(all, |es| + 2);
  }

  lemma PlacedOrRefused(d: DM.State, to: UserId, msg: Session.Envelope)
    requires d.sessions == Session.Run([])
    ensures var i, full := |d.sends|, |DM.QueueOf(d.table, to)| >= DM.OFFLINE_MAX;
            DM.Do(DM.Do(DM.Do(d, DM.Begin(to, msg)), DM.Advance(i)), DM.Advance(i)) ==
            d.(sends := d.sends + [DM.Send(to, msg, DM.Done(if full then DM.QueueFull else DM.Offline))],
               table := if full then d.table else d.table + [DM.Row(to, msg)])
  {
    hide DM.QueueOf;
    var i := |d.sends|;
    var d1 := DM.Do(d, DM.Begin(to, msg));
    assert d1.sends[i] == DM.Send(to, msg, DM.Checking);
    assert d.sessions.users == map[];
    var d2 := DM.Do(d1, DM.Advance(i));
    assert d2 == d.(sends := d.sends + [DM.Send(to, msg, DM.Storing)]);
  }

  lemma SubmittedAndPlaced(s: State, check: Check, to: UserId, msg: Session.Envelope)
    requires s.direct.sessions == Session.Run([]) && Passes(s, check)
    ensures var d, i, full := s.direct, |s.direct.sends|, |DM.QueueOf(s.direct.table, to)| >= DM.OFFLINE_MAX;
            Do(Do(Do(s, Submit(check, to, msg)), Other(DM.Advance(i))), Other(DM.Advance(i))) ==
            State(Next(s.seen, check, false),
                  d.(sends := d.sends + [DM.Send(to, msg, DM.Done(if full then DM.QueueFull else DM.Offline))],
                     table := if full then d.table else d.table + [DM.Row(to, msg)]))
  {
    hide DM.Do, DM.QueueOf, Next, Passes;
    PlacedOrRefused(s.direct, to, msg);
  }

  lemma OneMoreQueued(s: State, check: Check, to: UserId, msg: Session.Envelope, m: nat)
    requires Queued(s.direct, to, m) && m < DM.OFFLINE_MAX && Passes(s, check)
    ensures var after := Do(Do(Do(s, Submit(check, to, msg)), Other(DM.Advance(m))), Other(DM.Advance(m)));
            Queued(after.direct, to, m + 1) && after.seen == Next(s.seen, check, false)
  {
    hide Do, Passes, Next, DM.QueueOf;
    SubmittedAndPlaced(s, check, to, msg);
    DM.QueueAppend(s.direct.table, DM.Row(to, msg), to);
  }

  /** The identifiers of the backlog are in the cache, the messages in the queue. */
  lemma {:induction false} BacklogQueues(u: UserId, to: UserId, msg: Session.Envelope, n: nat)
    requires n <= DM.OFFLINE_MAX
    ensures var s := Run(Backlog(u, to, msg, n));
            Queued(s.direct, to, n) && if n == 0 then s.seen == map[] else Filled(s.seen, u, n)
    decreases n
  {
    hide Do, Passes, Filled, Next, DM.QueueOf, Rejects, Queued;
    if n == 0 {
      EmptyQueue(to);
    } else {
      var m := n - 1;
      var front, check := Backlog(u, to, msg, m), Check(u, Id(m), 0, "");
      BacklogQueues(u, to, msg, m);
      var s := Run(front);
      NextFilled(s, u, m);
      RunThree(front, Submit(check, to, msg), Other(DM.Advance(m)), Other(DM.Advance(m)));
      OneMoreQueued(s, check, to, msg, m);
    }
  }

  lemma EmptyQueue(to: UserId)
    ensures Queued(Run([]).direct, to, 0) && Run([]).seen == map[]
  {}

  lemma NextFilled(s: State, u: UserId, n: nat)
    requires n < DM.OFFLINE_MAX && if n == 0 then s.seen == map[] else Filled(s.seen, u, n)
    ensures var check := Check(u, Id(n), 0, "");
            Passes(s, check) && Filled(Next(s.seen, check, false), u, n + 1)
  {
    hide Next, Rejects, Filled;
    if n == 0 {
      FirstFilled(u, false);
      FirstCheck(Check(u, Id(0), 0, ""), Fill(u, 1));
    } else {
      FilledNext(s.seen, u, n, false);
    }
  }

  lemma FirstCheck(e: Check, es: seq<Check>)
    requires es == [e]
    ensures SeenCache.Run(es, false) == Next(map[], e, false)
  {
    assert es[..0] == [];
  }

  /** The id of a message that the cache has just let through, when few users are in it. */
  lemma JustUsed(c: Cache, v: UserId, id: string, n: nat, u: UserId)
    requires Filled(c, u, n) && n >= 1 && u != v
    ensures var e := Check(v, id, 0, "");
            !Rejects(c, e, false) && Rejects(Next(c, e, false), e, false)
  {
    var e := Check(v, id, 0, "");
    assert |c| == |c.Keys| == 1;
    NotPrepared(c, 0);
    hide Prepared;
    assert v !in c;
    var next := Next(c, e, false);
    assert next == c[v := map[id := 0]];
    assert next.Keys == c.Keys + {v} && |next| == |next.Keys| == 2;
    NotPrepared(next, 0);
    assert |map[id := 0]| == 1;
    assert Candidates(next, e) == map[id := 0];
  }

  /** A run: a thousand messages are waiting for an offline recipient; v's message is refused for the full
      queue, the recipient fetches everything, and v's message, sent again, is refused as a duplicate. */
  lemma RefusedThenDuplicate(u: UserId, v: UserId, to: UserId, msg: Session.Envelope, id: string)
    requires u != v
    ensures var n := DM.OFFLINE_MAX;
            var check := Check(v, id, 0, "");
            var es := Backlog(u, to, msg, n) + [Submit(check, to, msg), Other(DM.Advance(n)), Other(DM.Advance(n))];
            var fetched := Run(es + [Other(DM.Fetch(to))]);
            && |Run(es).direct.sends| == n + 1
            && Run(es).direct.sends[n] == DM.Send(to, msg, DM.Done(DM.QueueFull))
            && DM.QueueOf(fetched.direct.table, to) == []
            && !Passes(fetched, check)
  {
    hide Do, Passes, Filled, Next, DM.QueueOf, Rejects, Backlog, DM.Cleared, Run;
    var n, check, fetch := DM.OFFLINE_MAX, Check(v, id, 0, ""), Other(DM.Fetch(to));
    var front := Backlog(u, to, msg, n);
    var s := Run(front);
    BacklogQueues(u, to, msg, n);
    JustUsed(s.seen, v, id, n, u);
    PassesMeans(s, check);
    SubmittedAndPlaced(s, check, to, msg);
    RunThree(front, Submit(check, to, msg), Other(DM.Advance(n)), Other(DM.Advance(n)));
    var es := front + [Submit(check, to, msg), Other(DM.Advance(n)), Other(DM.Advance(n))];
    RunThree(es, fetch, fetch, fetch);
    FetchTakesAll(Run(es), to);
    PassesMeans(Run(es + [fetch]), check);
  }

  lemma PassesMeans(s: State, check: Check)
    ensures Passes(s, check) <==> !Rejects(s.seen, check, false)
  {}

  lemma FetchTakesAll(s: State, to: UserId)
    ensures var after := Do(s, Other(DM.Fetch(to)));
            after.seen == s.seen && DM.QueueOf(after.direct.table, to) == []
  {
    hide DM.QueueOf, DM.Cleared;
    DM.ClearedQueues(s.direct.table, to, to);
  }
}
