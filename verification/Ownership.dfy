/** Who owns a group: never nobody for good, when never two, and what a join request finds. */
module Ownership {
  import opened GroupModel
  import opened GroupRequests
  import opened GroupRuns

  // ---------- an active group is governed ----------

  ghost predicate Named(ts: seq<TransferRow>) {
    forall i | 0 <= i < |ts| :: ts[i].designee != ""
  }

  /** An active group has an owner or someone asked to become it. */
  ghost predicate Governed(g: Group) {
    && (g.state == Active ==> HasOwner(g) || HasPending(g.transfers))
    && Named(g.transfers)
  }

  lemma OwnerStays(g: Group, g': Group, u: UserId)
    requires IsOwner(g, u) && u in g'.members && g'.members[u] == g.members[u]
    ensures HasOwner(g')
  {}

  lemma LeaveKeepsGoverned(g: Group, user: UserId, successor: UserId, now: int)
    requires Governed(g)
    ensures Governed(LeaveGroup(g, user, successor, now).g)
  {
    var g' := LeaveGroup(g, user, successor, now).g;
    if g'.state == Active {
      if |g'.transfers| > |g.transfers| {
        assert g'.transfers[|g.transfers|].state == Pending;
      } else if HasOwner(g) {
        var u :| u in g.members && g.members[u].role == Owner;
        if user in g.members { OwnerStays(g, g', u); }
      }
    }
  }

  lemma DecideKeepsGoverned(g: Group, designee: UserId, accept: bool)
    requires Governed(g)
    ensures Governed(DecideTransfer(g, designee, accept).g)
  {
    var o := DecideTransfer(g, designee, accept);
    if o.reply == Done && accept {
      assert o.g.members[designee].role == Owner;
    }
  }

  /** The kick of an active group's only owner while nobody is asked to follow. */
  ghost predicate Unseats(g: Group, e: Event) {
    && e.request.Kick? && g.state == Active && !HasPending(g.transfers)
    && IsOwner(g, e.request.target)
    && forall u | IsOwner(g, u) :: u == e.request.target
  }

  lemma KickGoverned(g: Group, e: Event)
    requires Governed(g) && e.request.Kick?
    ensures Governed(RemoveMember(g, e.request.target).g) <==> !Unseats(g, e)
  {
    var g' := RemoveMember(g, e.request.target).g;
    if Unseats(g, e) {
      assert forall u | u in g'.members :: !IsOwner(g, u);
    } else if HasOwner(g) {
      var u :| u in g.members && g.members[u].role == Owner;
      if u == e.request.target && !HasPending(g.transfers) && g.state == Active {
        var v :| IsOwner(g, v) && v != e.request.target;
        OwnerStays(g, g', v);
      } else if u != e.request.target {
        OwnerStays(g, g', u);
      }
    }
  }

  lemma TransferKeepsGoverned(g: Group, prevOwner: UserId, designee: UserId, now: int)
    requires Governed(g) && designee != ""
    ensures Governed(CreateTransfer(g, prevOwner, designee, now).g)
  {
    var g' := CreateTransfer(g, prevOwner, designee, now).g;
    if g' != g {
      assert g'.transfers[|g.transfers|].state == Pending;
    }
  }

  lemma WelcomeKeepsGoverned(g: Group, sender: UserId, target: UserId, epoch: int, data: string)
    requires Governed(g)
    ensures Governed(AppendWelcome(g, sender, target, epoch, data).g)
  {
    if HasOwner(g) {
      var u :| u in g.members && g.members[u].role == Owner;
      OwnerStays(g, AppendWelcome(g, sender, target, epoch, data).g, u);
    }
  }

  /** A transaction, however old its check, leaves a governed group governed exactly when it is not such
      a kick. */
  lemma GovernedStep(g: Group, e: Event)
    requires Governed(g) && !Incomplete(e.request)
    ensures Governed(Act(g, e).g) <==> !Unseats(g, e)
  {
    hide Governed, AppendCommit, AppendWelcome, AppendMessage, UpsertCursor, LeaveGroup, RemoveMember,
         CreateTransfer, DecideTransfer, ReclaimMessages;
    match e.request
    case Leave(user, successor) => LeaveKeepsGoverned(g, user, successor, e.now);
    case Decide(user, accept) => DecideKeepsGoverned(g, user, accept);
    case Kick(_, _) => KickGoverned(g, e);
    case StartTransfer(user, designee) => TransferKeepsGoverned(g, user, designee, e.now);
    case Welcome(user, target, epoch, data) => WelcomeKeepsGoverned(g, user, target, epoch, data);
    case _ => Ungoverning(g, e);
  }

  /** A served kick is the owner's, of somebody else. */
  lemma ServedKickUnseatsNobody(g: Group, e: Event)
    ensures Guard(g, e.request).Proceed? ==> !Incomplete(e.request) && !Unseats(g, e)
  {
    hide Act;
    if Guard(g, e.request).Proceed? && e.request.Kick? {
      assert IsOwner(g, e.request.user) && e.request.user != e.request.target;
    }
  }

  lemma Ungoverning(g: Group, e: Event)
    requires Governed(g) && !WritesMembers(e.request) && !WritesTransfers(e.request)
    ensures Governed(Act(g, e).g)
  {
    MemberFootprint(g, e);
    OwnershipFootprint(g, e);
  }

  lemma GovernedAtCreation(creator: UserId)
    ensures Governed(NewGroup(creator))
  {
    assert NewGroup(creator).members[creator].role == Owner;
  }

  /** In every run of atomic handlers an active group has an owner or a pending transfer. */
  lemma {:induction false} ActiveGroupIsGoverned(creator: UserId, es: seq<Event>)
    ensures Governed(Served(NewGroup(creator), es))
    decreases |es|
  {
    hide Act, Governed, Unseats, Guard;
    if es == [] {
      GovernedAtCreation(creator);
    } else {
      var g, e := Served(NewGroup(creator), es[..|es| - 1]), es[|es| - 1];
      ActiveGroupIsGoverned(creator, es[..|es| - 1]);
      ServedKickUnseatsNobody(g, e);
      if Guard(g, e.request).Proceed? {
        GovernedStep(g, e);
      }
    }
  }

  /** In every interleaving: an active group has an owner or a pending transfer at every moment exactly
      when no kick, carried out late, meets its target as the only owner with nobody asked to follow. */
  lemma GovernedIffNobodyUnseated(creator: UserId, ts: seq<Event>)
    requires Interleaving(NewGroup(creator), ts)
    ensures var gs := States(NewGroup(creator), ts);
            Throughout(gs, Governed) <==> Never(gs, ts, Unseats)
  {
    hide Act, Governed, Unseats, Interleaving, Throughout, Never;
    var gs := States(NewGroup(creator), ts);
    InterleavingIsWellFormed(NewGroup(creator), ts);
    GovernedAtCreation(creator);
    StatesChain(NewGroup(creator), ts, 0);
    forall k | 0 <= k < |ts| ensures BreaksAt(gs, ts, Governed, Unseats, k) {
      StatesChain(NewGroup(creator), ts, k);
      assert ts[k] in ts;
      if Governed(gs[k]) {
        GovernedStep(gs[k], ts[k]);
      }
    }
    ThroughoutIffNever(gs, ts, Governed, Unseats);
  }

  /** From any governed active group without an owner, the newest designee's answer settles it, whoever
      else acts in whatever order before: declining dissolves the group; accepting makes the designee
      owner if still a member, and is refused without effect otherwise. Nobody else's answer has any
      effect. A decision has no check that could go stale, so the endpoint is its transaction. */
  lemma OneDecisionSettlesVacancy(g: Group, answer: UserId, accept: bool, now: int)
    requires Governed(g) && g.state == Active && !HasOwner(g)
    ensures var newest, e := NewestPending(g.transfers), Event(Decide(answer, accept), now);
            && newest.At?
            && (answer != "" ==> Handle(g, e) == Act(g, e))
            && var designee, o := g.transfers[newest.index].designee, Act(g, e);
               && designee != ""
               && (answer != designee ==> o.g == g && o.reply.Refused?)
               && (answer == designee && !accept ==> o.g.state == Dissolved && o.reply == Done)
               && (answer == designee && accept && designee in g.members ==>
                     IsOwner(o.g, designee) && o.g.state == Active && o.reply == Done)
               && (answer == designee && accept && designee !in g.members ==>
                     o == Outcome(g, Refused(InvalidSuccessor)))
  {}

  // ---------- join requests ----------

  /** With atomic handlers a join request that is not refused finds an owner present to act on it. */
  lemma AcceptedJoinRequestFindsOwner(creator: UserId, es: seq<Event>, applicant: UserId)
    requires Guard(Served(NewGroup(creator), es), AskToJoin(applicant)) == Proceed
    ensures HasOwner(Served(NewGroup(creator), es))
  {
    ActiveGroupIsGoverned(creator, es);
  }

  /** The moments at which a join request reads the group's state, its pending transfer, its owner (only
      if there is one pending) and its members. */
  datatype JoinReads = JoinReads(activeAt: nat, transferAt: nat, ownerAt: nat, memberAt: nat)

  predicate InOrder(r: JoinReads) {
    r.activeAt <= r.transferAt <= r.ownerAt <= r.memberAt
  }

  /** None of the reads refuses the applicant. */
  predicate JoinAccepted(gs: seq<Group>, r: JoinReads, applicant: UserId)
    requires InOrder(r) && r.memberAt < |gs|
  {
    && applicant != "" && gs[r.activeAt].state == Active
    && (HasPending(gs[r.transferAt].transfers) ==> HasOwner(gs[r.ownerAt]))
    && applicant !in gs[r.memberAt].members
  }

  /** The read that let the request through. */
  function DecidedAt(gs: seq<Group>, r: JoinReads): (d: nat)
    requires InOrder(r) && r.memberAt < |gs|
    ensures r.transferAt <= d <= r.memberAt
  {
    if HasPending(gs[r.transferAt].transfers) then r.ownerAt else r.transferAt
  }

  /** Reads at one moment are the check of the atomic handler. */
  lemma JoinReadsTogether(gs: seq<Group>, k: nat, applicant: UserId)
    requires k < |gs|
    ensures JoinAccepted(gs, JoinReads(k, k, k, k), applicant) <==> Guard(gs[k], AskToJoin(applicant)) == Proceed
  {}

  ghost predicate OnlyOwner(g: Group, u: UserId) {
    IsOwner(g, u) && forall v | IsOwner(g, v) :: v == u
  }

  /** The only owner leaves, to a successor or as the last member, or is removed. */
  ghost predicate LosesOwner(g: Group, e: Event) {
    match e.request
    case Leave(user, successor) =>
      && OnlyOwner(g, user)
      && (g.members.Keys - {user} == {} || (successor != "" && successor != user && successor in g.members))
    case Kick(_, target) => OnlyOwner(g, target)
    case _ => false
  }

  lemma DepartureLosesOwner(g: Group, e: Event)
    requires HasOwner(g) && (e.request.Leave? || e.request.Kick?)
    ensures HasOwner(Act(g, e).g) <==> !LosesOwner(g, e)
  {
    var g', gone := Act(g, e).g, if e.request.Leave? then e.request.user else e.request.target;
    if LosesOwner(g, e) {
      assert forall u | u in g'.members :: u in g.members && u != gone && !IsOwner(g, u);
    } else if g' != g {
      var u :| u in g.members && g.members[u].role == Owner;
      if u == gone {
        var v :| IsOwner(g, v) && v != gone;
        OwnerStays(g, g', v);
      } else {
        OwnerStays(g, g', u);
      }
    }
  }

  lemma OwnerSurvives(g: Group, e: Event)
    requires HasOwner(g) && (e.request.Welcome? || e.request.Decide?)
    ensures HasOwner(Act(g, e).g)
  {
    hide NewestPending;
    var u :| u in g.members && g.members[u].role == Owner;
    if e.request.Welcome? {
      OwnerStays(g, Act(g, e).g, u);
    } else if Act(g, e).g.members != g.members {
      assert IsOwner(Act(g, e).g, e.request.user);
    }
  }

  /** A transaction, however old its check, takes a group's last owner away exactly when it loses it. */
  lemma LastOwnerStep(g: Group, e: Event)
    requires HasOwner(g)
    ensures HasOwner(Act(g, e).g) <==> !LosesOwner(g, e)
  {
    hide Act, HasOwner, OnlyOwner;
    match e.request
    case Leave(_, _) => DepartureLosesOwner(g, e);
    case Kick(_, _) => DepartureLosesOwner(g, e);
    case Welcome(_, _, _, _) => OwnerSurvives(g, e);
    case Decide(_, _) => OwnerSurvives(g, e);
    case _ => SameOwners(g, e);
  }

  lemma SameOwners(g: Group, e: Event)
    requires !WritesMembers(e.request)
    ensures HasOwner(Act(g, e).g) <==> HasOwner(g)
  {
    hide Act;
    MemberFootprint(g, e);
  }

  /** A join request's reads anywhere in an interleaving in which no kick unseats the only owner: if it
      is let through, the read that did so found an owner, unless the group had been dissolved since the
      first read; and from then on there is an owner up to any later moment exactly when the last owner
      is not lost on the way. */
  lemma AcceptedJoinRequestSawOwner(creator: UserId, ts: seq<Event>, r: JoinReads, applicant: UserId, m: nat)
    requires Interleaving(NewGroup(creator), ts) && Never(States(NewGroup(creator), ts), ts, Unseats)
    requires InOrder(r) && r.memberAt <= |ts| && JoinAccepted(States(NewGroup(creator), ts), r, applicant)
    requires DecidedAt(States(NewGroup(creator), ts), r) <= m <= |ts|
    ensures var gs := States(NewGroup(creator), ts);
            var d := DecidedAt(gs, r);
            && (HasOwner(gs[d]) || gs[r.transferAt].state == Dissolved)
            && (HasOwner(gs[d]) ==> (Throughout(gs[d..m + 1], HasOwner) <==> Never(gs[d..m + 1], ts[d..m], LosesOwner)))
  {
    hide Act, HasOwner, HasPending, Unseats, LosesOwner, Throughout, Never, Interleaving;
    var g0 := NewGroup(creator);
    var gs := States(g0, ts);
    var d := DecidedAt(gs, r);
    GovernedIffNobodyUnseated(creator, ts);
    GovernedNow(gs, r.transferAt);
    if HasOwner(gs[d]) {
      OwnerKeptIffNotLost(g0, ts, d, m);
    }
  }

  lemma GovernedNow(gs: seq<Group>, k: nat)
    requires Throughout(gs, Governed) && k < |gs|
    ensures gs[k].state == Dissolved || HasOwner(gs[k]) || HasPending(gs[k].transfers)
  {
    assert Governed(gs[k]);
  }

  lemma OwnerKeptIffNotLost(g0: Group, ts: seq<Event>, d: nat, m: nat)
    requires d <= m <= |ts| && HasOwner(States(g0, ts)[d])
    ensures var gs := States(g0, ts);
            Throughout(gs[d..m + 1], HasOwner) <==> Never(gs[d..m + 1], ts[d..m], LosesOwner)
  {
    hide Act, HasOwner, LosesOwner, Throughout, Never;
    var gs, es := States(g0, ts)[d..m + 1], ts[d..m];
    forall k | 0 <= k < |es| ensures BreaksAt(gs, es, HasOwner, LosesOwner, k) {
      StatesChain(g0, ts, d + k);
      if HasOwner(gs[k]) {
        LastOwnerStep(gs[k], es[k]);
      }
    }
    ThroughoutIffNever(gs, es, HasOwner, LosesOwner);
  }

  // ---------- never two owners ----------

  ghost predicate AtMostOneOwner(g: Group) {
    forall u, v | IsOwner(g, u) && IsOwner(g, v) :: u == v
  }

  /** The designee of the newest pending transfer, still a member, accepts, while somebody else owns the
      group than the one who handed it over. */
  ghost predicate Usurps(g: Group, e: Event) {
    && e.request.Decide? && e.request.accept && e.request.user != "" && e.request.user in g.members
    && var newest := NewestPending(g.transfers);
       newest.At? && g.transfers[newest.index].designee == e.request.user &&
       exists u :: IsOwner(g, u) && u != g.transfers[newest.index].prevOwner && u != e.request.user
  }

  lemma AcceptChangesOwners(g: Group, designee: UserId, u: UserId)
    requires DecideTransfer(g, designee, true).reply == Done
    ensures IsOwner(DecideTransfer(g, designee, true).g, u) <==>
            u == designee || (IsOwner(g, u) && u != g.transfers[NewestPending(g.transfers).index].prevOwner)
  {
    hide NewestPending;
  }

  lemma DecideOneOwner(g: Group, e: Event)
    requires AtMostOneOwner(g) && e.request.Decide? && e.request.user != ""
    ensures AtMostOneOwner(DecideTransfer(g, e.request.user, e.request.accept).g) <==> !Usurps(g, e)
  {
    hide NewestPending;
    var designee, g' := e.request.user, DecideTransfer(g, e.request.user, e.request.accept).g;
    if e.request.accept && DecideTransfer(g, designee, true).reply == Done {
      forall u ensures IsOwner(g', u) <==>
                       u == designee || (IsOwner(g, u) && u != g.transfers[NewestPending(g.transfers).index].prevOwner)
      {
        AcceptChangesOwners(g, designee, u);
      }
      if Usurps(g, e) {
        var u :| IsOwner(g, u) && u != g.transfers[NewestPending(g.transfers).index].prevOwner && u != designee;
        assert IsOwner(g', u) && IsOwner(g', designee);
      } else {
        forall u | IsOwner(g', u) ensures u == designee {}
      }
    } else {
      forall u ensures IsOwner(g', u) <==> IsOwner(g, u) {}
    }
  }

  lemma FewerOwnersStillOne(g: Group, g': Group)
    requires AtMostOneOwner(g) && forall u | IsOwner(g', u) :: IsOwner(g, u)
    ensures AtMostOneOwner(g')
  {}

  lemma OnlyDecisionsMakeOwners(g: Group, e: Event, u: UserId)
    requires !e.request.Decide? && IsOwner(Act(g, e).g, u)
    ensures IsOwner(g, u)
  {
    hide AppendCommit, AppendMessage, UpsertCursor, CreateTransfer, DecideTransfer, ReclaimMessages;
    MemberFootprint(g, e);
  }

  /** A transaction, however old its check, makes a second owner exactly when it usurps. */
  lemma OneOwnerStep(g: Group, e: Event)
    requires AtMostOneOwner(g) && !Incomplete(e.request)
    ensures AtMostOneOwner(Act(g, e).g) <==> !Usurps(g, e)
  {
    hide AtMostOneOwner, DecideTransfer;
    if e.request.Decide? {
      DecideOneOwner(g, e);
    } else {
      hide Act;
      forall u | IsOwner(Act(g, e).g, u) ensures IsOwner(g, u) {
        OnlyDecisionsMakeOwners(g, e, u);
      }
      FewerOwnersStillOne(g, Act(g, e).g);
    }
  }

  lemma OneOwnerAtCreation(creator: UserId)
    ensures AtMostOneOwner(NewGroup(creator)) && SoleOwner(NewGroup(creator))
  {}

  /** In every interleaving: a group has at most one owner at every moment exactly when nobody accepts
      the newest pending transfer while somebody else than its sender owns the group. */
  lemma OneOwnerIffNobodyUsurps(creator: UserId, ts: seq<Event>)
    requires Interleaving(NewGroup(creator), ts)
    ensures var gs := States(NewGroup(creator), ts);
            Throughout(gs, AtMostOneOwner) <==> Never(gs, ts, Usurps)
  {
    hide Act, AtMostOneOwner, Usurps, Interleaving, Throughout, Never;
    var gs := States(NewGroup(creator), ts);
    InterleavingIsWellFormed(NewGroup(creator), ts);
    OneOwnerAtCreation(creator);
    StatesChain(NewGroup(creator), ts, 0);
    forall k | 0 <= k < |ts| ensures BreaksAt(gs, ts, AtMostOneOwner, Usurps, k) {
      StatesChain(NewGroup(creator), ts, k);
      assert ts[k] in ts;
      if AtMostOneOwner(gs[k]) {
        OneOwnerStep(gs[k], ts[k]);
      }
    }
    ThroughoutIffNever(gs, ts, AtMostOneOwner, Usurps);
  }

  /** The same for atomic handlers: no check of theirs prevents it. */
  lemma ServedOneOwnerIffNobodyUsurps(creator: UserId, es: seq<Event>)
    ensures var gs := ServedStates(NewGroup(creator), es);
            Throughout(gs, AtMostOneOwner) <==> Never(gs, es, Usurps)
  {
    hide Act, Guard, AtMostOneOwner, Usurps, Throughout, Never;
    var gs := ServedStates(NewGroup(creator), es);
    OneOwnerAtCreation(creator);
    ServedStatesChain(NewGroup(creator), es, 0);
    forall k | 0 <= k < |es| ensures BreaksAt(gs, es, AtMostOneOwner, Usurps, k) {
      ServedStatesChain(NewGroup(creator), es, k);
      DecisionsPass(gs[k], es[k]);
      if AtMostOneOwner(gs[k]) && Guard(gs[k], es[k].request).Proceed? {
        OneOwnerStep(gs[k], es[k]);
      }
    }
    ThroughoutIffNever(gs, es, AtMostOneOwner, Usurps);
  }

  lemma DecisionsPass(g: Group, e: Event)
    ensures Usurps(g, e) ==> Guard(g, e.request).Proceed?
    ensures Guard(g, e.request).Proceed? ==> !Incomplete(e.request)
  {}

  // ---------- what keeps usurpers away ----------

  /** At most one owner, at most one pending transfer, and a pending transfer beside an owner hands
      over that owner's role. */
  ghost predicate SoleOwner(g: Group) {
    && AtMostOneOwner(g)
    && (forall i, j | IsPending(g.transfers, i) && IsPending(g.transfers, j) :: i == j)
    && forall u, i | IsOwner(g, u) && IsPending(g.transfers, i) :: g.transfers[i].prevOwner == u
  }

  lemma NobodyUsurpsASoleOwner(g: Group, e: Event)
    requires SoleOwner(g)
    ensures !Usurps(g, e)
  {
    if NewestPending(g.transfers).At? {
      assert IsPending(g.transfers, NewestPending(g.transfers).index);
    }
  }

  /** An owner leaves behind a named successor while a transfer is already pending. */
  predicate LeavesBehind(g: Group, r: Request) {
    && r.Leave? && IsOwner(g, r.user)
    && r.successor != "" && r.successor != r.user && r.successor in g.members
    && HasPending(g.transfers)
  }

  /** An offer is recorded for somebody who is not, or no longer, the owner, while another one is. */
  ghost predicate OffersLate(g: Group, r: Request) {
    && r.StartTransfer? && r.user != r.designee && r.designee in g.members
    && !HasPending(g.transfers)
    && exists u :: IsOwner(g, u) && u != r.user
  }

  ghost predicate Muddles(g: Group, e: Event) {
    LeavesBehind(g, e.request) || OffersLate(g, e.request)
  }

  lemma LeaveSoleOwner(g: Group, user: UserId, successor: UserId, now: int)
    requires SoleOwner(g)
    ensures SoleOwner(LeaveGroup(g, user, successor, now).g) <==> !LeavesBehind(g, Leave(user, successor))
  {
    var g' := LeaveGroup(g, user, successor, now).g;
    if LeavesBehind(g, Leave(user, successor)) {
      assert successor in g.members.Keys - {user};
      var i :| 0 <= i < |g.transfers| && g.transfers[i].state == Pending;
      assert g'.transfers == g.transfers + [TransferRow(user, successor, Pending, now)];
      assert IsPending(g'.transfers, i) && IsPending(g'.transfers, |g.transfers|);
    } else {
      forall u | IsOwner(g', u) ensures IsOwner(g, u) && (g' == g || u != user) {}
      forall i | IsPending(g'.transfers, i)
        ensures IsPending(g.transfers, i) || (i == |g.transfers| && !HasPending(g.transfers) && IsOwner(g, user))
      {}
    }
  }

  lemma DecideSoleOwner(g: Group, designee: UserId, accept: bool)
    requires SoleOwner(g)
    ensures SoleOwner(DecideTransfer(g, designee, accept).g)
  {
    var o := DecideTransfer(g, designee, accept);
    if o.reply == Done {
      var i := NewestPending(g.transfers).index;
      assert IsPending(g.transfers, i);
      assert forall j | IsPending(o.g.transfers, j) :: IsPending(g.transfers, j) && j != i;
      forall u | IsOwner(o.g, u) ensures if accept then u == designee else IsOwner(g, u) {
        assert u != designee ==> IsOwner(g, u);
      }
    }
  }

  lemma TransferSoleOwner(g: Group, prevOwner: UserId, designee: UserId, now: int)
    requires SoleOwner(g)
    ensures SoleOwner(CreateTransfer(g, prevOwner, designee, now).g) <==>
            !OffersLate(g, StartTransfer(prevOwner, designee))
  {
    var g' := CreateTransfer(g, prevOwner, designee, now).g;
    assert forall u :: IsOwner(g', u) <==> IsOwner(g, u);
    if g' != g {
      assert IsPending(g'.transfers, |g.transfers|);
      assert forall i | IsPending(g'.transfers, i) :: i == |g.transfers|;
    }
  }

  lemma FewerOwners(g: Group, g': Group)
    requires SoleOwner(g) && g'.transfers == g.transfers
    requires forall u | IsOwner(g', u) :: IsOwner(g, u)
    ensures SoleOwner(g')
  {}

  lemma KickSoleOwner(g: Group, target: UserId)
    requires SoleOwner(g)
    ensures SoleOwner(RemoveMember(g, target).g)
  {
    FewerOwners(g, RemoveMember(g, target).g);
  }

  lemma WelcomeSoleOwner(g: Group, sender: UserId, target: UserId, epoch: int, data: string)
    requires SoleOwner(g)
    ensures SoleOwner(AppendWelcome(g, sender, target, epoch, data).g)
  {
    FewerOwners(g, AppendWelcome(g, sender, target, epoch, data).g);
  }

  lemma OwnershipUntouched(g: Group, e: Event)
    requires SoleOwner(g) && !WritesMembers(e.request) && !WritesTransfers(e.request)
    ensures SoleOwner(Act(g, e).g)
  {
    hide Act;
    MemberFootprint(g, e);
    OwnershipFootprint(g, e);
    FewerOwners(g, Act(g, e).g);
  }

  /** A transaction, however old its check, keeps a group with a sole owner that way exactly when it is
      neither an owner's leave during a pending transfer nor an overtaken offer. */
  lemma SoleOwnerStep(g: Group, e: Event)
    requires SoleOwner(g)
    ensures SoleOwner(Act(g, e).g) <==> !Muddles(g, e)
  {
    hide SoleOwner, AppendCommit, AppendWelcome, AppendMessage, UpsertCursor, LeaveGroup, RemoveMember,
         CreateTransfer, DecideTransfer, ReclaimMessages;
    match e.request
    case Leave(user, successor) => LeaveSoleOwner(g, user, successor, e.now);
    case Decide(user, accept) => DecideSoleOwner(g, user, accept);
    case StartTransfer(user, designee) => TransferSoleOwner(g, user, designee, e.now);
    case Kick(user, target) => KickSoleOwner(g, target);
    case Welcome(user, target, epoch, data) => WelcomeSoleOwner(g, user, target, epoch, data);
    case _ => OwnershipUntouched(g, e);
  }

  /** In every interleaving: at most one owner, one pending transfer and that transfer the owner's, at
      every moment, exactly when no owner leaves during a pending transfer and no offer is overtaken by
      a hand-over; and then nobody usurps. */
  lemma SoleOwnerIffNothingMuddled(creator: UserId, ts: seq<Event>)
    ensures var gs := States(NewGroup(creator), ts);
            && (Throughout(gs, SoleOwner) <==> Never(gs, ts, Muddles))
            && (Throughout(gs, SoleOwner) ==> Never(gs, ts, Usurps))
  {
    hide Act, SoleOwner, Muddles, Usurps;
    var gs := States(NewGroup(creator), ts);
    OneOwnerAtCreation(creator);
    StatesChain(NewGroup(creator), ts, 0);
    forall k | 0 <= k < |ts| ensures BreaksAt(gs, ts, SoleOwner, Muddles, k) {
      StatesChain(NewGroup(creator), ts, k);
      if SoleOwner(gs[k]) {
        SoleOwnerStep(gs[k], ts[k]);
      }
    }
    ThroughoutIffNever(gs, ts, SoleOwner, Muddles);
    SoleOwnerStopsUsurpers(gs, ts);
  }

  lemma SoleOwnerStopsUsurpers(gs: seq<Group>, es: seq<Event>)
    requires |gs| == |es| + 1
    ensures Throughout(gs, SoleOwner) ==> Never(gs, es, Usurps)
  {
    hide SoleOwner, Usurps;
    if Throughout(gs, SoleOwner) {
      forall k | 0 <= k < |es| ensures !Usurps(gs[k], es[k]) {
        assert SoleOwner(gs[k]);
        NobodyUsurpsASoleOwner(gs[k], es[k]);
      }
    }
  }

  /** An active group's owner asks to leave behind a successor while a transfer is already pending. */
  ghost predicate LeavesTwice(g: Group, e: Event) {
    LeavesBehind(g, e.request) && g.state == Active && e.request.user != ""
  }

  lemma ServedMuddle(g: Group, e: Event)
    requires AtMostOneOwner(g)
    ensures Guard(g, e.request).Proceed? && Muddles(g, e) <==> LeavesTwice(g, e)
  {
    hide Act;
    match e.request
    case StartTransfer(user, _) => assert Guard(g, e.request).Proceed? ==> IsOwner(g, user);
    case _ =>
  }

  lemma ServedSoleOwnerStep(g: Group, e: Event)
    requires SoleOwner(g)
    ensures SoleOwner(Handle(g, e).g) <==> !LeavesTwice(g, e)
  {
    assert AtMostOneOwner(g);
    hide SoleOwner, AtMostOneOwner, Act, Guard, Muddles, LeavesTwice;
    ServedMuddle(g, e);
    SoleOwnerStep(g, e);
  }

  /** Over whole runs of atomic handlers: the same invariant holds at every moment exactly when no owner
      ever leaves while a transfer is pending; and then nobody usurps. */
  lemma SoleOwnerThroughoutIffNeverLeavesTwice(creator: UserId, es: seq<Event>)
    ensures var gs := ServedStates(NewGroup(creator), es);
            && (Throughout(gs, SoleOwner) <==> Never(gs, es, LeavesTwice))
            && (Never(gs, es, LeavesTwice) ==> Never(gs, es, Usurps))
  {
    hide Handle, SoleOwner, LeavesTwice, Usurps;
    var gs := ServedStates(NewGroup(creator), es);
    OneOwnerAtCreation(creator);
    ServedStatesChain(NewGroup(creator), es, 0);
    forall k | 0 <= k < |es| ensures BreaksAt(gs, es, SoleOwner, LeavesTwice, k) {
      ServedStatesChain(NewGroup(creator), es, k);
      if SoleOwner(gs[k]) {
        ServedSoleOwnerStep(gs[k], es[k]);
      }
    }
    ThroughoutIffNever(gs, es, SoleOwner, LeavesTwice);
    SoleOwnerStopsUsurpers(gs, es);
  }

  // ---------- runs that end with two owners, or none ----------

  /** owner, a and b form a group in which nothing has been handed over. */
  ghost predicate Trio(g: Group, owner: UserId, a: UserId, b: UserId) {
    && owner != "" && a != "" && b != "" && owner != a && owner != b && a != b
    && g.state == Active && g.creator == owner && g.transfers == []
    && owner in g.members && a in g.members && b in g.members
    && g.members[owner].role == Owner && g.members[a].role == Member && g.members[b].role == Member
  }

  lemma WelcomeOne(g: Group, owner: UserId, u: UserId, now: int)
    requires g.state == Active && IsOwner(g, owner) && owner != "" && u != "" && u !in g.members && |g.members| < 9
    ensures var g' := Handle(g, Event(Welcome(owner, u, 0, "w"), now)).g;
            && g'.members == g.members[u := MemberRow(Member, 0)]
            && g' == g.(members := g'.members, log := g'.log)
  {}

  /** Two welcomes after creation make such a group. */
  lemma TrioIsReachable(owner: UserId, a: UserId, b: UserId)
    requires owner != "" && a != "" && b != "" && owner != a && owner != b && a != b
    ensures Trio(Served(NewGroup(owner), [Event(Welcome(owner, a, 0, "w"), 0), Event(Welcome(owner, b, 0, "w"), 0)]),
                 owner, a, b)
  {
    var e1, e2 := Event(Welcome(owner, a, 0, "w"), 0), Event(Welcome(owner, b, 0, "w"), 0);
    var g0 := NewGroup(owner);
    WelcomeOne(g0, owner, a, 0);
    WelcomeOne(Handle(g0, e1).g, owner, b, 0);
    TwoServed(g0, e1, e2);
  }

  lemma TwoServed(g: Group, e1: Event, e2: Event)
    ensures Served(g, [e1, e2]) == Handle(Handle(g, e1).g, e2).g
  {
    assert [e1, e2][..1] == [e1] && [e1][..0] == [];
    assert Served(g, [e1]) == Handle(g, e1).g;
  }

  lemma OfferTo(g: Group, owner: UserId, a: UserId, now: int)
    requires g.state == Active && IsOwner(g, owner) && a in g.members && a != owner && owner != "" && a != ""
    requires !HasPending(g.transfers)
    ensures Handle(g, Event(StartTransfer(owner, a), now)).g ==
            g.(transfers := g.transfers + [TransferRow(owner, a, Pending, now)])
  {
    hide HasPending;
  }

  lemma LeaveTo(g: Group, owner: UserId, b: UserId, now: int)
    requires g.state == Active && IsOwner(g, owner) && b in g.members && b != owner && owner != "" && b != ""
    ensures Handle(g, Event(Leave(owner, b), now)).g ==
            Without(g, owner).(transfers := g.transfers + [TransferRow(owner, b, Pending, now)],
                               removals := g.removals + {owner})
  {
    assert b in g.members.Keys - {owner};
  }

  lemma AcceptOnly(g: Group, i: nat, designee: UserId, now: int)
    requires NewestPending(g.transfers) == At(i) && i < |g.transfers| && g.transfers[i].designee == designee
    requires designee != "" && designee in g.members
    ensures Handle(g, Event(Decide(designee, true), now)).g ==
            g.(members := Promote(Demote(g.members, g.transfers[i].prevOwner), designee),
               transfers := g.transfers[i := g.transfers[i].(state := Accepted)])
  {
    hide NewestPending;
  }

  lemma NewestOfOne(t: TransferRow)
    ensures NewestPending([t]) == if t.state == Pending then At(0) else Nowhere
  {
    assert [t][..0] == [];
  }

  lemma NewestOfTwo(s: TransferRow, t: TransferRow)
    requires if t.state == Pending then s.createdAt <= t.createdAt else s.state == Pending
    ensures NewestPending([s, t]) == if t.state == Pending then At(1) else At(0)
  {
    assert [s, t][..1] == [s];
    NewestOfOne(s);
    hide NewestPending;
    assert [s, t][1] == t;
    NewestByRule([s, t], if t.state == Pending then 1 else 0);
  }

  lemma NewestByRule(ts: seq<TransferRow>, i: nat)
    requires IsPending(ts, i)
    requires forall j | 0 <= j < |ts| && ts[j].state == Pending :: NotOlder(ts, i, j)
    ensures NewestPending(ts) == At(i)
  {
    hide NewestPending;
    assert HasPending(ts);
    var k := NewestPending(ts).index;
    assert NotOlder(ts, i, k) && NotOlder(ts, k, i);
  }

  lemma NothingPending(ts: seq<TransferRow>)
    requires ts == []
    ensures !HasPending(ts)
  {}

  /** The owner offers the group to a, then leaves it to b before a answers; b accepts, a accepts:
      two owners. */
  lemma LeavingTwiceMakesTwoOwners(g: Group, owner: UserId, a: UserId, b: UserId, now: int)
    requires Trio(g, owner, a, b)
    ensures var es := [Event(StartTransfer(owner, a), now), Event(Leave(owner, b), now),
                       Event(Decide(b, true), now), Event(Decide(a, true), now)];
            IsOwner(Served(g, es), a) && IsOwner(Served(g, es), b)
  {
    hide Handle, NewestPending, HasPending, Served;
    var e1, e2 := Event(StartTransfer(owner, a), now), Event(Leave(owner, b), now);
    var e3, e4 := Event(Decide(b, true), now), Event(Decide(a, true), now);
    var toA, toB := TransferRow(owner, a, Pending, now), TransferRow(owner, b, Pending, now);
    NothingPending(g.transfers);
    OfferTo(g, owner, a, now);
    var g1 := Handle(g, e1).g;
    assert g1.transfers == [toA];
    LeaveTo(g1, owner, b, now);
    var g2 := Handle(g1, e2).g;
    assert g2.transfers == [toA, toB] && g2.members == g.members - {owner};
    NewestOfTwo(toA, toB);
    AcceptOnly(g2, 1, b, now);
    var g3 := Handle(g2, e3).g;
    assert g3.transfers == [toA, toB.(state := Accepted)];
    NewestOfTwo(toA, toB.(state := Accepted));
    AcceptOnly(g3, 0, a, now);
    FourServed(g, e1, e2, e3, e4);
  }

  lemma FourServed(g: Group, e1: Event, e2: Event, e3: Event, e4: Event)
    ensures Served(g, [e1, e2, e3, e4]) == Handle(Handle(Handle(Handle(g, e1).g, e2).g, e3).g, e4).g
  {
    hide Handle, Served;
    TwoServed(g, e1, e2);
    assert [e1, e2] + [e3] == [e1, e2, e3] && [e1, e2, e3] + [e4] == [e1, e2, e3, e4];
    ServedOne(g, [e1, e2], e3);
    ServedOne(g, [e1, e2, e3], e4);
  }

  lemma ServedOne(g: Group, es: seq<Event>, e: Event)
    ensures Served(g, es + [e]) == Handle(Served(g, es), e).g
  {
    assert (es + [e])[..|es|] == es;
  }

  /** a has been offered the group and has accepted it. */
  ghost function HandedOver(g: Group, owner: UserId, a: UserId, now: int): Group {
    Handle(Handle(g, Event(StartTransfer(owner, a), now)).g, Event(Decide(a, true), now)).g
  }

  lemma AfterHandOver(g: Group, owner: UserId, a: UserId, b: UserId, now: int)
    requires Trio(g, owner, a, b)
    ensures HandedOver(g, owner, a, now) ==
            g.(members := Promote(Demote(g.members, owner), a), transfers := [TransferRow(owner, a, Accepted, now)])
  {
    hide Handle, NewestPending, HasPending, Promote, Demote;
    var toA := TransferRow(owner, a, Pending, now);
    NothingPending(g.transfers);
    OfferTo(g, owner, a, now);
    assert [] + [toA] == [toA];
    NewestOfOne(toA);
    AcceptOnly(Handle(g, Event(StartTransfer(owner, a), now)).g, 0, a, now);
    AcceptedOne(toA);
  }

  lemma AcceptedOne(t: TransferRow)
    ensures [t][0 := t.(state := Accepted)] == [t.(state := Accepted)]
  {}

  /** Governed holds of atomic handlers only: the owner's kick of a passes its guard, a is offered the
      group and accepts it, and the kick then leaves an active group with no owner and nobody asked. */
  lemma SplitKickLeavesNobody(g: Group, owner: UserId, a: UserId, b: UserId, now: int)
    requires Trio(g, owner, a, b)
    requires forall u | u in g.members && u != owner :: g.members[u].role != Owner
    ensures Guard(g, Kick(owner, a)) == Proceed
    ensures Unseats(HandedOver(g, owner, a, now), Event(Kick(owner, a), now))
    ensures !Governed(Act(HandedOver(g, owner, a, now), Event(Kick(owner, a), now)).g)
  {
    AfterHandOver(g, owner, a, b, now);
    hide HandedOver;
    var kicked := Act(HandedOver(g, owner, a, now), Event(Kick(owner, a), now)).g;
    assert forall u | u in kicked.members :: kicked.members[u].role != Owner;
  }

  /** So does SoleOwner: if it is an offer to b that passed its guard before, b's acceptance makes a
      second owner. */
  lemma SplitTransferMakesTwoOwners(g: Group, owner: UserId, a: UserId, b: UserId, now: int)
    requires Trio(g, owner, a, b)
    ensures Guard(g, StartTransfer(owner, b)) == Proceed
    ensures OffersLate(HandedOver(g, owner, a, now), StartTransfer(owner, b))
    ensures var offered := Act(HandedOver(g, owner, a, now), Event(StartTransfer(owner, b), now)).g;
            var g' := Handle(offered, Event(Decide(b, true), now)).g;
            IsOwner(g', a) && IsOwner(g', b)
  {
    AfterHandOver(g, owner, a, b, now);
    hide HandedOver, Handle, NewestPending;
    var done, toB := TransferRow(owner, a, Accepted, now), TransferRow(owner, b, Pending, now);
    var handed := HandedOver(g, owner, a, now);
    assert IsOwner(handed, a);
    OfferRecorded(handed, owner, b, now);
    var offered := Act(handed, Event(StartTransfer(owner, b), now)).g;
    hide Act;
    assert offered.transfers == [done, toB];
    NewestOfTwo(done, toB);
    AcceptOnly(offered, 1, b, now);
  }

  /** A join request has read that no transfer is pending when the only owner leaves to b; the membership
      read lets it through all the same, to a group that for now has no owner. */
  lemma JoinRequestOutlivesOwner(g: Group, owner: UserId, a: UserId, b: UserId, applicant: UserId, now: int)
    requires Trio(g, owner, a, b) && applicant != "" && applicant !in g.members
    requires forall u | u in g.members && u != owner :: g.members[u].role != Owner
    ensures var leave, r := Event(Leave(owner, b), now), JoinReads(0, 0, 0, 1);
            var gs := States(g, [leave]);
            && Interleaving(g, [leave]) && Guard(g, leave.request) == Proceed
            && JoinAccepted(gs, r, applicant) && HasOwner(gs[DecidedAt(gs, r)])
            && LosesOwner(g, leave) && gs[1].state == Active && !HasOwner(gs[1])
  {
    var leave := Event(Leave(owner, b), now);
    NothingPending(g.transfers);
    NothingSettled(g, [leave]);
    SettledStep(g, [leave], 0);
    StatesChain(g, [leave], 0);
    assert IsOwner(g, owner) && HasOwner(g);
    hide Act, HasPending, Settled, Interleaving;
    LeaveTo(g, owner, b, now);
    LeaveIsServed(g, leave);
    assert [leave][..1] == [leave];
    assert forall u | u in Act(g, leave).g.members :: u in g.members && u != owner;
  }

  lemma LeaveIsServed(g: Group, e: Event)
    requires e.request.Leave? && e.request.user != "" && g.state == Active
    ensures Handle(g, e) == Act(g, e)
  {
    hide Act;
  }

  lemma OfferRecorded(g: Group, prevOwner: UserId, designee: UserId, now: int)
    requires prevOwner != designee && designee in g.members && !HasPending(g.transfers)
    ensures Act(g, Event(StartTransfer(prevOwner, designee), now)).g ==
            g.(transfers := g.transfers + [TransferRow(prevOwner, designee, Pending, now)])
  {
    hide HasPending;
  }
}
