/** The bounded caches of identifiers already used: request nonces (windowed, CheckNonce) and direct
    message ids (not windowed, isReplay). Both are judged against the unbounded history of checks.

    Times are in nanoseconds. When a user's entries are at the limit, Go's map order decides which one
    is dropped: a check carries that choice as its victim. */
module SeenCache {
  import GroupModel
  import opened Ordered

  type UserId = GroupModel.UserId
  type Seen = map<string, int>
  type Cache = map<UserId, Seen>

  const WINDOW: int := 300_000_000_000
  const SWEEP_FROM: nat := 1000
  const PER_USER_MAX: nat := 1000

  datatype Check = Check(user: UserId, id: string, now: int, victim: string)

  // ---------- one check ----------

  function Stale(m: Seen, now: int): set<string> {
    set id | id in m && now - m[id] > WINDOW
  }

  function Fresh(m: Seen, now: int): Seen {
    m - Stale(m, now)
  }

  ghost predicate IsSwept(c: Cache, now: int, swept: Cache) {
    && (forall u :: u in swept <==> u in c && Fresh(c[u], now) != map[])
    && forall u | u in swept :: swept[u] == Fresh(c[u], now)
  }

  /** Every stale entry goes, and users left without entries go with them. */
  ghost function SweepAll(c: Cache, now: int): (swept: Cache)
    ensures IsSwept(c, now, swept)
    decreases |c|
  {
    if c.Keys == {} then map[] else
      var u :| u in c.Keys;
      assert |c - {u}| < |c| by { FewerKeys(c, u); }
      var rest := SweepAll(c - {u}, now);
      if Fresh(c[u], now) == map[] then rest else rest[u := Fresh(c[u], now)]
  }

  lemma FewerKeys<K, V>(m: map<K, V>, k: K)
    requires k in m
    ensures |m - {k}| < |m|
  {
    assert |m| == |m.Keys| && |m - {k}| == |(m - {k}).Keys|;
    assert (m - {k}).Keys == m.Keys - {k};
  }

  lemma SweptUnique(c: Cache, now: int, a: Cache, b: Cache)
    requires IsSwept(c, now, a) && IsSwept(c, now, b)
    ensures a == b
  {
    assert forall u :: u in a <==> u in b;
    assert forall u | u in a :: a[u] == b[u];
  }

  ghost function Prepared(c: Cache, now: int): Cache {
    if |c| >= SWEEP_FROM then SweepAll(c, now) else c
  }

  function EntriesOf(c: Cache, u: UserId): Seen {
    if u in c then c[u] else map[]
  }

  function Trimmed(m: Seen, now: int): Seen {
    if |m| >= PER_USER_MAX then Fresh(m, now) else m
  }

  /** The user's entries when the cache decides whether one must be dropped. */
  ghost function Candidates(c: Cache, e: Check): Seen {
    Trimmed(EntriesOf(Prepared(c, e.now), e.user), e.now)
  }

  /** e drops u's entry id for want of room. */
  ghost predicate Evicts(c: Cache, e: Check, u: UserId, id: string) {
    e.user == u && e.victim == id && |Candidates(c, e)| >= PER_USER_MAX
  }

  /** The victim is one of the entries. */
  ghost predicate Chooses(c: Cache, e: Check) {
    |Candidates(c, e)| >= PER_USER_MAX ==> e.victim in Candidates(c, e)
  }

  /** The user's entries when the identifier is looked up. */
  ghost function LookedUp(c: Cache, e: Check): Seen {
    if |Candidates(c, e)| >= PER_USER_MAX then Candidates(c, e) - {e.victim} else Candidates(c, e)
  }

  ghost predicate Rejects(c: Cache, e: Check, windowed: bool) {
    e.id in LookedUp(c, e) && (windowed ==> e.now - LookedUp(c, e)[e.id] < WINDOW)
  }

  ghost function Next(c: Cache, e: Check, windowed: bool): Cache {
    Prepared(c, e.now)[e.user := if Rejects(c, e, windowed) then LookedUp(c, e) else LookedUp(c, e)[e.id := e.now]]
  }

  // ---------- what one check keeps ----------

  predicate Holds(c: Cache, u: UserId, id: string, t: int) {
    u in c && id in c[u] && c[u][id] == t
  }

  lemma PreparedKeeps(c: Cache, now: int, u: UserId, id: string, t: int)
    ensures Holds(Prepared(c, now), u, id, t) ==> Holds(c, u, id, t)
    ensures Holds(c, u, id, t) && now - t <= WINDOW ==> Holds(Prepared(c, now), u, id, t)
  {
    if Holds(c, u, id, t) && now - t <= WINDOW {
      assert id in Fresh(c[u], now);
    }
  }

  lemma LookedUpKeeps(c: Cache, e: Check, id: string, t: int)
    ensures id in LookedUp(c, e) && LookedUp(c, e)[id] == t ==>
              Holds(c, e.user, id, t) && !Evicts(c, e, e.user, id)
    ensures Holds(c, e.user, id, t) && e.now - t <= WINDOW && !Evicts(c, e, e.user, id) ==>
              id in LookedUp(c, e) && LookedUp(c, e)[id] == t
  {
    hide Prepared;
    PreparedKeeps(c, e.now, e.user, id, t);
  }

  lemma NextHolds(c: Cache, e: Check, windowed: bool, u: UserId, id: string, t: int)
    requires Holds(Next(c, e, windowed), u, id, t)
    ensures (e.user == u && e.id == id && e.now == t && !Rejects(c, e, windowed)) ||
            (Holds(c, u, id, t) && !Evicts(c, e, u, id))
  {
    hide Prepared, LookedUp, Candidates;
    if e.user == u {
      LookedUpKeeps(c, e, id, t);
    } else {
      PreparedKeeps(c, e.now, u, id, t);
    }
  }

  lemma NextKeeps(c: Cache, e: Check, windowed: bool, u: UserId, id: string, t: int)
    requires Holds(c, u, id, t) && e.now - t < WINDOW && !Evicts(c, e, u, id)
    ensures Holds(Next(c, e, windowed), u, id, t)
  {
    hide Prepared, LookedUp, Candidates;
    if e.user == u {
      LookedUpKeeps(c, e, id, t);
    } else {
      PreparedKeeps(c, e.now, u, id, t);
    }
  }

  // ---------- runs against the unbounded history ----------

  ghost function Run(es: seq<Check>, windowed: bool): Cache
    decreases |es|
  {
    if es == [] then map[] else Next(Run(es[..|es| - 1], windowed), es[|es| - 1], windowed)
  }

  /** The k-th check of the run was answered "already used". */
  ghost predicate Rejected(es: seq<Check>, windowed: bool, k: nat)
    requires k < |es|
  {
    Rejects(Run(es[..k], windowed), es[k], windowed)
  }

  ghost predicate Uses(es: seq<Check>, windowed: bool, j: nat, u: UserId, id: string) {
    j < |es| && es[j].user == u && es[j].id == id && !Rejected(es, windowed, j)
  }

  ghost predicate EvictedAt(es: seq<Check>, windowed: bool, i: nat, u: UserId, id: string)
    requires i < |es|
  {
    Evicts(Run(es[..i], windowed), es[i], u, id)
  }

  /** Check j used the identifier, and no check from j on, up to and including n - 1, evicted it. */
  ghost predicate Remembered(es: seq<Check>, windowed: bool, j: nat, n: nat, u: UserId, id: string)
    requires n <= |es|
  {
    Uses(es, windowed, j, u, id) && j < n && forall i | j < i < n :: !EvictedAt(es, windowed, i, u, id)
  }

  predicate NonDecreasing(es: seq<Check>) {
    forall i, j | 0 <= i < j < |es| :: es[i].now <= es[j].now
  }

  lemma RunStep(es: seq<Check>, windowed: bool, n: nat)
    requires n < |es|
    ensures Run(es[..n + 1], windowed) == Next(Run(es[..n], windowed), es[n], windowed)
  {
    assert es[..n + 1][..n] == es[..n];
  }

  lemma StillRemembered(es: seq<Check>, windowed: bool, j: nat, n: nat, u: UserId, id: string)
    requires n < |es| && Remembered(es, windowed, j, n, u, id) && !EvictedAt(es, windowed, n, u, id)
    ensures Remembered(es, windowed, j, n + 1, u, id)
  {
    hide Uses, EvictedAt;
  }

  lemma EmptyHolds(es: seq<Check>, windowed: bool, u: UserId, id: string, t: int)
    requires es == []
    ensures !Holds(Run(es, windowed), u, id, t)
  {}

  /** An entry in the cache is an identifier that was used at that time and not evicted since. */
  lemma {:induction false} HeldWasUsed(es: seq<Check>, windowed: bool, n: nat, u: UserId, id: string, t: int)
    requires n <= |es| && Holds(Run(es[..n], windowed), u, id, t)
    ensures exists j: nat :: Remembered(es, windowed, j, n, u, id) && es[j].now == t
    decreases n
  {
    hide Next, Evicts, Rejects, Run;
    if n == 0 {
      EmptyHolds(es[..0], windowed, u, id, t);
    } else {
      RunStep(es, windowed, n - 1);
      var c, e := Run(es[..n - 1], windowed), es[n - 1];
      NextHolds(c, e, windowed, u, id, t);
      if e.user == u && e.id == id && e.now == t && !Rejects(c, e, windowed) {
        assert Remembered(es, windowed, n - 1, n, u, id);
      } else {
        HeldWasUsed(es, windowed, n - 1, u, id, t);
        var j: nat :| Remembered(es, windowed, j, n - 1, u, id) && es[j].now == t;
        StillRemembered(es, windowed, j, n - 1, u, id);
      }
    }
  }

  /** Less than a window after its use an identifier that is not evicted is still held. */
  lemma {:induction false} UsedIsHeld(es: seq<Check>, windowed: bool, j: nat, n: nat, u: UserId, id: string)
    requires n <= |es| && Remembered(es, windowed, j, n, u, id)
    requires forall i | j < i < n :: es[i].now - es[j].now < WINDOW
    ensures Holds(Run(es[..n], windowed), u, id, es[j].now)
    decreases n
  {
    hide Next, Evicts, Rejects, Run;
    RunStep(es, windowed, n - 1);
    if j == n - 1 {
      UseIsHeld(Run(es[..j], windowed), es[j], windowed);
    } else {
      UsedIsHeld(es, windowed, j, n - 1, u, id);
      assert !EvictedAt(es, windowed, n - 1, u, id);
      NextKeeps(Run(es[..n - 1], windowed), es[n - 1], windowed, u, id, es[j].now);
    }
  }

  lemma UseIsHeld(c: Cache, e: Check, windowed: bool)
    requires !Rejects(c, e, windowed)
    ensures Holds(Next(c, e, windowed), e.user, e.id, e.now)
  {}

  lemma RejectedIsHeld(c: Cache, e: Check, windowed: bool) returns (t: int)
    requires Rejects(c, e, windowed)
    ensures Holds(c, e.user, e.id, t) && !Evicts(c, e, e.user, e.id)
    ensures windowed ==> e.now - t < WINDOW
  {
    t := LookedUp(c, e)[e.id];
    hide LookedUp, Evicts;
    LookedUpKeeps(c, e, e.id, t);
  }

  /** Neither cache ever reports an identifier that was not used before, whatever the clock does. */
  lemma RejectedWasUsed(es: seq<Check>, windowed: bool, k: nat)
    requires k < |es| && Rejected(es, windowed, k)
    ensures exists j: nat :: Remembered(es, windowed, j, k + 1, es[k].user, es[k].id) && j < k &&
                             (windowed ==> es[k].now - es[j].now < WINDOW)
  {
    hide Rejects, Evicts, Run, Holds;
    var e := es[k];
    var t := RejectedIsHeld(Run(es[..k], windowed), e, windowed);
    HeldWasUsed(es, windowed, k, e.user, e.id, t);
    var j: nat :| Remembered(es, windowed, j, k, e.user, e.id) && es[j].now == t;
    StillRemembered(es, windowed, j, k, e.user, e.id);
  }

  /** Less than a window after a use that has not been evicted, both caches report it. */
  lemma RecentUseIsRejected(es: seq<Check>, windowed: bool, j: nat, k: nat)
    requires NonDecreasing(es) && j < k < |es| && Remembered(es, windowed, j, k + 1, es[k].user, es[k].id)
    requires es[k].now - es[j].now < WINDOW
    ensures Rejected(es, windowed, k)
  {
    var c, e := Run(es[..k], windowed), es[k];
    hide Evicts, LookedUp;
    UsedIsHeld(es, windowed, j, k, e.user, e.id);
    assert !EvictedAt(es, windowed, k, e.user, e.id);
    LookedUpKeeps(c, e, e.id, es[j].now);
  }

  /** With a clock that does not go back, CheckNonce reports a nonce exactly when the unbounded history
      shows it used less than one window ago and room was not made at its expense since. */
  lemma NonceRejectedIffRecentlyUsed(es: seq<Check>, k: nat)
    requires NonDecreasing(es) && k < |es|
    ensures Rejected(es, true, k) <==>
            exists j: nat :: Remembered(es, true, j, k + 1, es[k].user, es[k].id) && j < k &&
                             es[k].now - es[j].now < WINDOW
  {
    hide Rejected, Remembered;
    if Rejected(es, true, k) {
      RejectedWasUsed(es, true, k);
    }
    if j: nat :| Remembered(es, true, j, k + 1, es[k].user, es[k].id) && j < k && es[k].now - es[j].now < WINDOW {
      RecentUseIsRejected(es, true, j, k);
    }
  }

  // ---------- size ----------

  ghost predicate Choices(es: seq<Check>, windowed: bool)
    decreases |es|
  {
    es == [] || (Choices(es[..|es| - 1], windowed) && Chooses(Run(es[..|es| - 1], windowed), es[|es| - 1]))
  }

  /** Every user listed has between 1 and 1000 entries. */
  ghost predicate Bounded(c: Cache) {
    forall u | u in c :: 1 <= |c[u]| <= PER_USER_MAX
  }

  lemma SubmapSize<K, V>(m: map<K, V>, ks: set<K>)
    ensures |m - ks| <= |m|
    ensures forall k | k in ks && k in m :: |m - ks| < |m|
  {
    assert |m| == |m.Keys| && |m - ks| == |(m - ks).Keys|;
    assert (m - ks).Keys == m.Keys - ks;
    assert m.Keys == (m.Keys - ks) + (m.Keys * ks);
    assert |m.Keys| == |m.Keys - ks| + |m.Keys * ks|;
    forall k | k in ks && k in m ensures |m - ks| < |m| {
      assert k in m.Keys * ks;
    }
  }

  lemma PreparedBounded(c: Cache, now: int)
    requires Bounded(c)
    ensures Bounded(Prepared(c, now))
  {
    forall u | u in Prepared(c, now) ensures 1 <= |Prepared(c, now)[u]| <= PER_USER_MAX {
      SubmapSize(c[u], Stale(c[u], now));
    }
  }

  lemma LookedUpHasRoom(c: Cache, e: Check)
    requires Bounded(c) && Chooses(c, e)
    ensures |LookedUp(c, e)| < PER_USER_MAX
  {
    PreparedBounded(c, e.now);
    hide Prepared;
    var m := EntriesOf(Prepared(c, e.now), e.user);
    SubmapSize(m, Stale(m, e.now));
    SubmapSize(Candidates(c, e), {e.victim});
  }

  lemma OneMoreKey<K, V>(m: map<K, V>, k: K, v: V)
    ensures 1 <= |m[k := v]| <= |m| + 1
  {
    assert |m| == |m.Keys| && |m[k := v]| == |m[k := v].Keys|;
    assert m[k := v].Keys == m.Keys + {k};
  }

  lemma NextBounded(c: Cache, e: Check, windowed: bool)
    requires Bounded(c) && Chooses(c, e)
    ensures Bounded(Next(c, e, windowed))
  {
    PreparedBounded(c, e.now);
    LookedUpHasRoom(c, e);
    hide Prepared, LookedUp;
    OneMoreKey(LookedUp(c, e), e.id, e.now);
    if Rejects(c, e, windowed) {
      assert e.id in LookedUp(c, e).Keys;
      assert |LookedUp(c, e)| == |LookedUp(c, e).Keys| != 0;
    }
  }

  /** In every run no user ever has more than 1000 entries, and no user is listed without any. */
  lemma {:induction false} EachUserBounded(es: seq<Check>, windowed: bool)
    requires Choices(es, windowed)
    ensures Bounded(Run(es, windowed))
    decreases |es|
  {
    if es != [] {
      EachUserBounded(es[..|es| - 1], windowed);
      NextBounded(Run(es[..|es| - 1], windowed), es[|es| - 1], windowed);
    }
  }

  // ---------- when there is room ----------

  /** How many of the checks were u's, made no more than a window before now. */
  function RecentBy(es: seq<Check>, u: UserId, now: int): nat {
    if es == [] then 0 else
      var e := es[|es| - 1];
      RecentBy(es[..|es| - 1], u, now) + if e.user == u && now - e.now <= WINDOW then 1 else 0
  }

  predicate Within(a: Seen, b: Seen) {
    forall id | id in a :: id in b && b[id] == a[id]
  }

  lemma FewerFresh(a: Seen, b: Seen, now: int)
    requires Within(a, b)
    ensures |Fresh(a, now)| <= |Fresh(b, now)|
  {
    CardinalityOfSubset(Fresh(a, now).Keys, Fresh(b, now).Keys);
    assert |Fresh(a, now)| == |Fresh(a, now).Keys| && |Fresh(b, now)| == |Fresh(b, now).Keys|;
  }

  lemma PreparedWithin(c: Cache, now: int, u: UserId)
    ensures Within(EntriesOf(Prepared(c, now), u), EntriesOf(c, u))
  {}

  lemma CandidatesWithin(c: Cache, e: Check)
    ensures Within(Candidates(c, e), EntriesOf(c, e.user)) && Within(LookedUp(c, e), EntriesOf(c, e.user))
  {
    hide Prepared;
    PreparedWithin(c, e.now, e.user);
  }

  lemma OneMoreFresh(m: Seen, id: string, t: int, now: int)
    ensures |Fresh(m[id := t], now)| <= |Fresh(m, now)| + if now - t <= WINDOW then 1 else 0
  {
    var more := Fresh(m[id := t], now);
    if now - t <= WINDOW {
      CardinalityOfSubset(more.Keys, Fresh(m, now).Keys + {id});
    } else {
      CardinalityOfSubset(more.Keys, Fresh(m, now).Keys);
    }
    assert |more| == |more.Keys| && |Fresh(m, now)| == |Fresh(m, now).Keys|;
  }

  lemma FreshStep(c: Cache, e: Check, windowed: bool, u: UserId, now: int)
    ensures |Fresh(EntriesOf(Next(c, e, windowed), u), now)| <=
            |Fresh(EntriesOf(c, u), now)| + if e.user == u && now - e.now <= WINDOW then 1 else 0
  {
    hide Prepared, LookedUp, Fresh, Rejects;
    if e.user == u {
      CandidatesWithin(c, e);
      FewerFresh(LookedUp(c, e), EntriesOf(c, u), now);
      OneMoreFresh(LookedUp(c, e), e.id, e.now, now);
    } else {
      PreparedWithin(c, e.now, u);
      FewerFresh(EntriesOf(Prepared(c, e.now), u), EntriesOf(c, u), now);
    }
  }

  lemma {:induction false} FreshEntriesAreRecentChecks(es: seq<Check>, windowed: bool, u: UserId, now: int)
    ensures |Fresh(EntriesOf(Run(es, windowed), u), now)| <= RecentBy(es, u, now)
    decreases |es|
  {
    hide Next, Fresh;
    if es == [] {
      NothingFresh(u, now);
    } else {
      var front, e := es[..|es| - 1], es[|es| - 1];
      FreshEntriesAreRecentChecks(front, windowed, u, now);
      FreshStep(Run(front, windowed), e, windowed, u, now);
    }
  }

  lemma NothingFresh(u: UserId, now: int)
    ensures |Fresh(EntriesOf(map[], u), now)| == 0
  {
    assert Fresh(map[], now) == map[];
  }

  lemma FullOfFresh(c: Cache, e: Check)
    requires |Candidates(c, e)| >= PER_USER_MAX
    ensures |Fresh(EntriesOf(c, e.user), e.now)| >= PER_USER_MAX
  {
    hide Prepared, Fresh;
    PreparedWithin(c, e.now, e.user);
    FewerFresh(EntriesOf(Prepared(c, e.now), e.user), EntriesOf(c, e.user), e.now);
  }

  /** Room is made at a user's expense only when that user has made at least 1000 checks within the last
      window, whatever the other users do and whatever the clock did before. */
  lemma EvictionNeedsAThousandRecentChecks(es: seq<Check>, windowed: bool, n: nat, u: UserId, id: string)
    requires n < |es| && EvictedAt(es, windowed, n, u, id)
    ensures RecentBy(es[..n], u, es[n].now) >= PER_USER_MAX
  {
    hide Candidates, Run, Fresh;
    FullOfFresh(Run(es[..n], windowed), es[n]);
    FreshEntriesAreRecentChecks(es[..n], windowed, u, es[n].now);
  }

  /** Identifier k: k + 1 letters. */
  function Id(k: nat): (id: string)
    ensures |id| == k + 1
  {
    seq(k + 1, _ => 'n')
  }

  /** n identifiers checked at one moment by one user. */
  function Fill(u: UserId, n: nat): (es: seq<Check>)
    ensures |es| == n && forall k | 0 <= k < n :: es[k] == Check(u, Id(k), 0, "")
  {
    seq(n, k requires 0 <= k => Check(u, Id(k), 0, ""))
  }

  /** u has used exactly the first n identifiers, at moment 0. */
  ghost predicate Filled(c: Cache, u: UserId, n: nat) {
    && c.Keys == {u} && |c[u]| == n
    && (forall id | id in c[u] :: 1 <= |id| <= n && c[u][id] == 0)
    && forall k | 0 <= k < n :: Id(k) in c[u]
  }

  lemma FilledNext(c: Cache, u: UserId, n: nat, windowed: bool)
    requires Filled(c, u, n) && n < PER_USER_MAX
    ensures var e := Check(u, Id(n), 0, ""); !Rejects(c, e, windowed) && Filled(Next(c, e, windowed), u, n + 1)
    ensures Chooses(c, Check(u, Id(n), 0, ""))
  {
    var e := Check(u, Id(n), 0, "");
    assert |c| == |c.Keys| == 1;
    NotPrepared(c, 0);
    hide Prepared;
    assert Candidates(c, e) == c[u];
    NewKey(c[u], Id(n), 0);
  }

  lemma NewKey<K, V>(m: map<K, V>, k: K, v: V)
    requires k !in m
    ensures |m[k := v]| == |m| + 1
  {
    assert |m| == |m.Keys| && |m[k := v]| == |m[k := v].Keys|;
    assert m[k := v].Keys == m.Keys + {k};
  }

  lemma FirstFilled(u: UserId, windowed: bool)
    ensures !Rejects(map[], Check(u, Id(0), 0, ""), windowed)
    ensures Filled(Run(Fill(u, 1), windowed), u, 1) && Choices(Fill(u, 1), windowed)
  {
    var e := Check(u, Id(0), 0, "");
    assert Fill(u, 1) == [e] && [e][..0] == [];
    FirstUse(e, windowed);
    var m := map[Id(0) := 0];
    assert m.Keys == {Id(0)} && |m| == |m.Keys|;
    assert |EntriesOf(map[], u)| == 0;
  }

  lemma {:induction false} FillFills(u: UserId, n: nat, windowed: bool)
    requires 1 <= n <= PER_USER_MAX
    ensures Filled(Run(Fill(u, n), windowed), u, n) && Choices(Fill(u, n), windowed)
  {
    hide Next, Rejects, Filled, Chooses;
    if n == 1 {
      FirstFilled(u, windowed);
    } else {
      FillFills(u, n - 1, windowed);
      assert Fill(u, n)[..n - 1] == Fill(u, n - 1);
      FilledNext(Run(Fill(u, n - 1), windowed), u, n - 1, windowed);
    }
  }

  /** A thousand identifiers, one more that drops the first, and the first again. */
  function Overfill(u: UserId): (es: seq<Check>)
    ensures |es| == PER_USER_MAX + 2 && forall e | e in es :: e.user == u && e.now == 0
  {
    Fill(u, PER_USER_MAX) + [Check(u, Id(PER_USER_MAX), 0, Id(0)), Check(u, Id(0), 0, Id(1))]
  }

  lemma FullDropsVictim(c: Cache, u: UserId, windowed: bool)
    requires Filled(c, u, PER_USER_MAX)
    ensures var e := Check(u, Id(PER_USER_MAX), 0, Id(0));
            && Chooses(c, e) && Evicts(c, e, u, Id(0))
            && Next(c, e, windowed) == map[u := (c[u] - {Id(0)})[Id(PER_USER_MAX) := 0]]
  {
    var e := Check(u, Id(PER_USER_MAX), 0, Id(0));
    assert |c| == |c.Keys| == 1;
    NotPrepared(c, 0);
    hide Prepared;
    NothingStale(c[u]);
    assert Candidates(c, e) == c[u];
    assert Id(PER_USER_MAX) !in LookedUp(c, e);
  }

  lemma NothingStale(m: Seen)
    requires forall id | id in m :: m[id] == 0
    ensures Fresh(m, 0) == m
  {
    assert Stale(m, 0) == {};
  }

  lemma DroppedIsAcceptedAgain(c: Cache, m: Seen, u: UserId, windowed: bool)
    requires c == map[u := (m - {Id(0)})[Id(PER_USER_MAX) := 0]]
    requires Filled(map[u := m], u, PER_USER_MAX)
    ensures var e := Check(u, Id(0), 0, Id(1)); Chooses(c, e) && !Rejects(c, e, windowed)
  {
    var e := Check(u, Id(0), 0, Id(1));
    assert |c| == |c.Keys| == 1;
    NotPrepared(c, 0);
    hide Prepared;
    NothingStale(c[u]);
    assert Candidates(c, e) == c[u];
    assert Id(1) in m && Id(1) != Id(0);
  }

  /** The bound is met: after a thousand checks at one moment the next one can drop the first identifier,
      which either cache then accepts a second time at that same moment. */
  lemma ThousandChecksReopenTheFirst(u: UserId, windowed: bool)
    ensures var es := Overfill(u);
            && Choices(es, windowed)
            && es[0].id == es[PER_USER_MAX + 1].id && RecentBy(es[..PER_USER_MAX], u, 0) >= PER_USER_MAX
            && !Rejected(es, windowed, 0) && EvictedAt(es, windowed, PER_USER_MAX, u, es[0].id)
            && !Rejected(es, windowed, PER_USER_MAX + 1)
  {
    hide Next, Rejects, Filled, Chooses, Evicts, RecentBy;
    var es, n := Overfill(u), PER_USER_MAX;
    assert es[..n] == Fill(u, n) && es[..n + 2] == es && es[..0] == [];
    FillFills(u, n, windowed);
    var c := Run(es[..n], windowed);
    FilledIsOneUser(c, u, n);
    FullDropsVictim(c, u, windowed);
    RunStep(es, windowed, n);
    DroppedIsAcceptedAgain(Run(es[..n + 1], windowed), c[u], u, windowed);
    FirstFilled(u, windowed);
    assert es[..n + 1][..n] == es[..n] && es[..n + 2][..n + 1] == es[..n + 1];
    assert Choices(es[..n + 1], windowed);
    EvictionNeedsAThousandRecentChecks(es, windowed, n, u, Id(0));
  }

  lemma FilledIsOneUser(c: Cache, u: UserId, n: nat)
    requires Filled(c, u, n)
    ensures u in c && c == map[u := c[u]]
  {}

  // ---------- where the two caches differ ----------

  /** A sweep at e removes u's entry id: it is stale, and e is made when there are many users, or when u
      itself is at the limit. */
  predicate Sweeps(c: Cache, e: Check, u: UserId, id: string) {
    && u in c && id in c[u] && e.now - c[u][id] > WINDOW
    && (|c| >= SWEEP_FROM || (e.user == u && |c[u]| >= PER_USER_MAX))
  }

  ghost predicate Drops(c: Cache, e: Check, u: UserId, id: string) {
    Evicts(c, e, u, id) || Sweeps(c, e, u, id)
  }

  lemma PreparedExactly(c: Cache, now: int, u: UserId, id: string, t: int)
    ensures Holds(Prepared(c, now), u, id, t) <==> Holds(c, u, id, t) && !(|c| >= SWEEP_FROM && now - t > WINDOW)
  {
    if Holds(c, u, id, t) && now - t <= WINDOW {
      assert id in Fresh(c[u], now);
    }
  }

  lemma LookedUpExactly(c: Cache, e: Check, id: string, t: int)
    ensures id in LookedUp(c, e) && LookedUp(c, e)[id] == t <==>
            Holds(c, e.user, id, t) && !Drops(c, e, e.user, id)
  {
    hide Prepared;
    PreparedExactly(c, e.now, e.user, id, t);
    if |c| < SWEEP_FROM {
      NotPrepared(c, e.now);
    }
  }

  lemma NotPrepared(c: Cache, now: int)
    requires |c| < SWEEP_FROM
    ensures Prepared(c, now) == c
  {}

  lemma NextExactly(c: Cache, e: Check, u: UserId, id: string, t: int)
    requires !(e.user == u && e.id == id && !Rejects(c, e, false))
    ensures Holds(Next(c, e, false), u, id, t) <==> Holds(c, u, id, t) && !Drops(c, e, u, id)
  {
    hide Prepared, LookedUp, Candidates;
    if e.user == u {
      LookedUpExactly(c, e, id, t);
    } else {
      PreparedExactly(c, e.now, u, id, t);
    }
  }

  ghost predicate DroppedAt(es: seq<Check>, i: nat, u: UserId, id: string)
    requires i < |es|
  {
    Drops(Run(es[..i], false), es[i], u, id)
  }

  /** Check j used the message id, and no check after it, up to and including n - 1, dropped it. */
  ghost predicate Kept(es: seq<Check>, j: nat, n: nat, u: UserId, id: string)
    requires n <= |es|
  {
    Uses(es, false, j, u, id) && j < n && forall i | j < i < n :: !DroppedAt(es, i, u, id)
  }

  /** Check j used what check k is about, and nothing up to and including k dropped it. */
  ghost predicate KeptFor(es: seq<Check>, j: int, k: nat)
    requires k < |es|
  {
    0 <= j < k && Kept(es, j, k + 1, es[k].user, es[k].id)
  }

  lemma StillKept(es: seq<Check>, j: nat, n: nat, u: UserId, id: string)
    requires n < |es| && Kept(es, j, n, u, id) && !DroppedAt(es, n, u, id)
    ensures Kept(es, j, n + 1, u, id)
  {
    hide Uses, DroppedAt;
  }

  lemma {:induction false} HeldWasKept(es: seq<Check>, n: nat, u: UserId, id: string, t: int)
    requires n <= |es| && Holds(Run(es[..n], false), u, id, t)
    ensures exists j: nat :: Kept(es, j, n, u, id)
    decreases n
  {
    hide Next, Drops, Rejects, Run;
    if n == 0 {
      EmptyHolds(es[..0], false, u, id, t);
    } else {
      RunStep(es, false, n - 1);
      var c, e := Run(es[..n - 1], false), es[n - 1];
      if e.user == u && e.id == id && !Rejects(c, e, false) {
        assert Kept(es, n - 1, n, u, id);
      } else {
        NextExactly(c, e, u, id, t);
        HeldWasKept(es, n - 1, u, id, t);
        var j: nat :| Kept(es, j, n - 1, u, id);
        StillKept(es, j, n - 1, u, id);
      }
    }
  }

  lemma {:induction false} KeptIsHeld(es: seq<Check>, j: nat, n: nat, u: UserId, id: string)
    requires n <= |es| && Kept(es, j, n, u, id)
    ensures exists t :: Holds(Run(es[..n], false), u, id, t)
    decreases n
  {
    hide Next, Drops, Rejects, Run;
    RunStep(es, false, n - 1);
    var c, e := Run(es[..n - 1], false), es[n - 1];
    if e.user == u && e.id == id && !Rejects(c, e, false) {
      UseIsHeld(c, e, false);
    } else if j < n - 1 {
      KeptIsHeld(es, j, n - 1, u, id);
      var t :| Holds(c, u, id, t);
      assert !DroppedAt(es, n - 1, u, id);
      NextExactly(c, e, u, id, t);
    }
  }

  /** Whatever the clock does, isReplay reports a message id exactly when it was used before and neither
      swept nor evicted since, however long ago that was. */
  lemma MessageIdRejectedIffKept(es: seq<Check>, k: nat)
    requires k < |es|
    ensures Rejected(es, false, k) <==> exists j :: KeptFor(es, j, k)
  {
    hide Drops, LookedUp, Run, Next;
    var c, e := Run(es[..k], false), es[k];
    if Rejected(es, false, k) {
      var t := LookedUp(c, e)[e.id];
      LookedUpExactly(c, e, e.id, t);
      HeldWasKept(es, k, e.user, e.id, t);
      var j: nat :| Kept(es, j, k, e.user, e.id);
      StillKept(es, j, k, e.user, e.id);
      assert KeptFor(es, j, k);
    }
    if j :| KeptFor(es, j, k) {
      KeptIsHeld(es, j, k, e.user, e.id);
      var t :| Holds(c, e.user, e.id, t);
      assert !DroppedAt(es, k, e.user, e.id);
      LookedUpExactly(c, e, e.id, t);
    }
  }

  /** In any history: once every earlier check of a pair is a window old, the nonce cache lets it pass,
      while the message id cache still reports it if it has kept it. */
  lemma OnlyNoncesExpire(es: seq<Check>, k: nat)
    requires k < |es|
    requires forall j | 0 <= j < k && es[j].user == es[k].user && es[j].id == es[k].id ::
               es[k].now - es[j].now >= WINDOW
    ensures !Rejected(es, true, k)
    ensures (exists j :: KeptFor(es, j, k)) ==> Rejected(es, false, k)
  {
    hide Rejected, KeptFor;
    MessageIdRejectedIffKept(es, k);
    if Rejected(es, true, k) {
      RejectedWasUsed(es, true, k);
    }
  }

  lemma FirstUse(e: Check, windowed: bool)
    ensures Run([e], windowed) == map[e.user := map[e.id := e.now]]
  {
    assert [e][..0] == [];
    assert Run([], windowed) == map[];
    assert |EntriesOf(map[], e.user)| == 0;
  }
}
