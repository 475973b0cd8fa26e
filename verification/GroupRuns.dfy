/** Runs of the group endpoints at two grains.

    Served(g, es) is the group after serving es one request at a time. Settled(g, ts) is the group
    after the transactions ts alone, in the order in which they reached the one database
    connection: their guards may have read the rows at any earlier moment, in any interleaving. */
module GroupRuns {
  import opened Ordered
  import opened GroupModel
  import opened GroupRequests

  ghost function Served(g: Group, es: seq<Event>): Group
    decreases |es|
  {
    if es == [] then g else Handle(Served(g, es[..|es| - 1]), es[|es| - 1]).g
  }

  ghost function Settled(g: Group, ts: seq<Event>): Group
    decreases |ts|
  {
    if ts == [] then g else Act(Settled(g, ts[..|ts| - 1]), ts[|ts| - 1]).g
  }

  ghost predicate EpochWasCurrent(g: Group, ts: seq<Event>, epoch: int) {
    exists k | 0 <= k <= |ts| :: Settled(g, ts[..k]).epoch == epoch
  }

  ghost predicate SeqWasQueued(g: Group, ts: seq<Event>, lastSeq: int) {
    exists k | 0 <= k <= |ts| :: lastSeq <= TopSeq(Settled(g, ts[..k]).queue)
  }

  /** The checks that do not depend on the moment: no field is missing, no seq is negative. */
  predicate WellFormed(r: Request) {
    !Incomplete(r) && (r.Ack? ==> r.lastSeq >= 0)
  }

  /** What the guard of t established at some moment no later than the end of ts. */
  ghost predicate Observed(g: Group, ts: seq<Event>, t: Event) {
    WellFormed(t.request) &&
    match t.request
    case Send(_, epoch, _, _) => EpochWasCurrent(g, ts, epoch)
    case Ack(_, lastSeq) => SeqWasQueued(g, ts, lastSeq)
    case _ => true
  }

  /** ts is the order in which the transactions of some interleaving of requests commit. */
  ghost predicate Interleaving(g: Group, ts: seq<Event>)
    decreases |ts|
  {
    ts == [] || (Interleaving(g, ts[..|ts| - 1]) && Observed(g, ts[..|ts| - 1], ts[|ts| - 1]))
  }

  /** The events of es whose guard lets the transaction run. */
  ghost function Passed(g: Group, es: seq<Event>): seq<Event>
    decreases |es|
  {
    if es == [] then [] else
      var front, e := es[..|es| - 1], es[|es| - 1];
      if Guard(Served(g, front), e.request).Proceed? then Passed(g, front) + [e] else Passed(g, front)
  }

  ghost predicate AllWellFormed(ts: seq<Event>) {
    forall t | t in ts :: WellFormed(t.request)
  }

  lemma {:induction false} InterleavingIsWellFormed(g: Group, ts: seq<Event>)
    requires Interleaving(g, ts)
    ensures AllWellFormed(ts)
    decreases |ts|
  {
    if ts != [] {
      InterleavingIsWellFormed(g, ts[..|ts| - 1]);
    }
  }

  lemma {:induction false} InterleavingPrefix(g: Group, ts: seq<Event>, k: nat)
    requires Interleaving(g, ts) && k <= |ts|
    ensures Interleaving(g, ts[..k])
    decreases |ts|
  {
    if k == |ts| {
      assert ts[..k] == ts;
    } else {
      assert ts[..|ts| - 1][..k] == ts[..k];
      InterleavingPrefix(g, ts[..|ts| - 1], k);
    }
  }

  /** One transaction more. */
  lemma SettledMore(g: Group, ts: seq<Event>, t: Event)
    ensures Settled(g, ts + [t]) == Act(Settled(g, ts), t).g
    ensures Interleaving(g, ts + [t]) <==> Interleaving(g, ts) && Observed(g, ts, t)
  {
    hide Act, Observed;
    assert (ts + [t])[..|ts|] == ts;
  }

  lemma GuardIsObserved(g: Group, ts: seq<Event>, e: Event)
    requires Guard(Settled(g, ts), e.request).Proceed?
    ensures Observed(g, ts, e)
  {
    hide Settled;
    assert ts[..|ts|] == ts;
  }

  /** Serving requests one at a time is one of the interleavings: whatever holds of every
      interleaving holds of every run of atomic handlers. */
  lemma {:induction false} ServedIsAnInterleaving(g: Group, es: seq<Event>)
    ensures Interleaving(g, Passed(g, es))
    ensures Settled(g, Passed(g, es)) == Served(g, es)
    decreases |es|
  {
    hide Act, Guard, Observed;
    if es != [] {
      var front, e := es[..|es| - 1], es[|es| - 1];
      ServedIsAnInterleaving(g, front);
      if Guard(Served(g, front), e.request).Proceed? {
        GuardIsObserved(g, Passed(g, front), e);
        SettledMore(g, Passed(g, front), e);
      }
    }
  }

  /** Transaction k of an interleaving, when its check saw what it needed. */
  lemma SettledStep(g: Group, ts: seq<Event>, k: nat)
    requires k < |ts| && Interleaving(g, ts[..k]) && WellFormed(ts[k].request)
    requires ts[k].request.Send? ==> EpochWasCurrent(g, ts[..k], ts[k].request.epoch)
    requires ts[k].request.Ack? ==> SeqWasQueued(g, ts[..k], ts[k].request.lastSeq)
    ensures Settled(g, ts[..k + 1]) == Act(Settled(g, ts[..k]), ts[k]).g
    ensures Interleaving(g, ts[..k + 1])
  {
    hide Act, Settled, Interleaving, EpochWasCurrent, SeqWasQueued, WellFormed;
    assert ts[..k + 1] == ts[..k] + [ts[k]];
    SettledMore(g, ts[..k], ts[k]);
  }

  lemma NothingSettled(g: Group, ts: seq<Event>)
    ensures Settled(g, ts[..0]) == g && Interleaving(g, ts[..0])
  {}

  lemma FirstEpochWasCurrent(g: Group, ts: seq<Event>)
    ensures EpochWasCurrent(g, ts, g.epoch)
  {
    assert Settled(g, ts[..0]) == g;
  }

  // ---------- from one step to every moment of a run ----------

  /** inv holds of every state a run goes through. */
  ghost predicate Throughout(gs: seq<Group>, inv: Group -> bool) {
    forall k | 0 <= k < |gs| :: inv(gs[k])
  }

  /** No event of the run meets a state in which it does harm. */
  ghost predicate Never(gs: seq<Group>, es: seq<Event>, harm: (Group, Event) -> bool)
    requires |gs| == |es| + 1
  {
    forall k | 0 <= k < |es| :: !harm(gs[k], es[k])
  }

  /** Event k breaks inv exactly when it does harm. */
  ghost predicate BreaksAt(gs: seq<Group>, es: seq<Event>, inv: Group -> bool, harm: (Group, Event) -> bool, k: nat)
    requires |gs| == |es| + 1 && k < |es|
  {
    inv(gs[k]) ==> (inv(gs[k + 1]) <==> !harm(gs[k], es[k]))
  }

  lemma {:induction false} HarmlessSoFar(gs: seq<Group>, es: seq<Event>, inv: Group -> bool,
        harm: (Group, Event) -> bool, k: nat)
    requires |gs| == |es| + 1 && k <= |es| && inv(gs[0])
    requires forall j | 0 <= j < |es| :: BreaksAt(gs, es, inv, harm, j)
    requires Never(gs, es, harm)
    ensures inv(gs[k])
    decreases k
  {
    if k > 0 {
      HarmlessSoFar(gs, es, inv, harm, k - 1);
      assert BreaksAt(gs, es, inv, harm, k - 1);
      assert !harm(gs[k - 1], es[k - 1]);
    }
  }

  /** If harm is exactly what breaks an invariant in one step, the invariant holds throughout a run
      exactly when the run never does harm. */
  lemma ThroughoutIffNever(gs: seq<Group>, es: seq<Event>, inv: Group -> bool, harm: (Group, Event) -> bool)
    requires |gs| == |es| + 1 && inv(gs[0])
    requires forall k | 0 <= k < |es| :: BreaksAt(gs, es, inv, harm, k)
    ensures Throughout(gs, inv) <==> Never(gs, es, harm)
  {
    if Never(gs, es, harm) {
      forall k | 0 <= k < |gs| ensures inv(gs[k]) {
        HarmlessSoFar(gs, es, inv, harm, k);
      }
    }
    if Throughout(gs, inv) {
      forall k | 0 <= k < |es| ensures !harm(gs[k], es[k]) {
        assert BreaksAt(gs, es, inv, harm, k);
        assert inv(gs[k]) && inv(gs[k + 1]);
      }
    }
  }

  /** The states that the transactions ts go through. */
  ghost function States(g: Group, ts: seq<Event>): (gs: seq<Group>)
    ensures |gs| == |ts| + 1
    ensures forall k | 0 <= k <= |ts| :: gs[k] == Settled(g, ts[..k])
  {
    seq(|ts| + 1, k requires 0 <= k <= |ts| => Settled(g, ts[..k]))
  }

  lemma StatesChain(g: Group, ts: seq<Event>, k: nat)
    requires k <= |ts|
    ensures k < |ts| ==> States(g, ts)[k + 1] == Act(States(g, ts)[k], ts[k]).g
    ensures k == 0 ==> States(g, ts)[k] == g
    ensures k == |ts| ==> States(g, ts)[k] == Settled(g, ts)
  {
    hide Act;
    assert k < |ts| ==> ts[..k + 1][..k] == ts[..k];
    assert ts[..|ts|] == ts;
  }

  /** The states that serving es goes through. */
  ghost function ServedStates(g: Group, es: seq<Event>): (gs: seq<Group>)
    ensures |gs| == |es| + 1
    ensures forall k | 0 <= k <= |es| :: gs[k] == Served(g, es[..k])
  {
    seq(|es| + 1, k requires 0 <= k <= |es| => Served(g, es[..k]))
  }

  lemma ServedStatesChain(g: Group, es: seq<Event>, k: nat)
    requires k <= |es|
    ensures k < |es| ==> ServedStates(g, es)[k + 1] == Handle(ServedStates(g, es)[k], es[k]).g
    ensures k == 0 ==> ServedStates(g, es)[k] == g
    ensures k == |es| ==> ServedStates(g, es)[k] == Served(g, es)
  {
    hide Handle;
    assert k < |es| ==> es[..k + 1][..k] == es[..k];
    assert es[..|es|] == es;
  }

  lemma NeverMore(g: Group, ts: seq<Event>, t: Event, harm: (Group, Event) -> bool)
    ensures Never(States(g, ts + [t]), ts + [t], harm) <==>
            Never(States(g, ts), ts, harm) && !harm(Settled(g, ts), t)
  {
    hide Act, Settled;
    var more := ts + [t];
    assert more[..|ts|] == ts && ts[..|ts|] == ts;
    assert forall k | 0 <= k <= |ts| :: more[..k] == ts[..k];
    assert forall k | 0 <= k <= |ts| :: States(g, more)[k] == States(g, ts)[k];
    assert forall k | 0 <= k < |ts| :: more[k] == ts[k];
    if Never(States(g, more), more, harm) {
      assert !harm(States(g, more)[|ts|], more[|ts|]);
    }
  }

  lemma {:induction false} NeverPrefix(g: Group, ts: seq<Event>, k: nat, harm: (Group, Event) -> bool)
    requires Never(States(g, ts), ts, harm) && k <= |ts|
    ensures Never(States(g, ts[..k]), ts[..k], harm)
    decreases |ts|
  {
    hide *;
    if k == |ts| {
      assert ts[..k] == ts;
    } else {
      var front := ts[..|ts| - 1];
      assert ts == front + [ts[|ts| - 1]] && front[..k] == ts[..k];
      NeverMore(g, front, ts[|ts| - 1], harm);
      NeverPrefix(g, front, k, harm);
    }
  }
}
