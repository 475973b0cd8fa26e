/** A signed request must be fresh by its own timestamp and carry a nonce not used before: together,
    how often one signed request can be accepted. Signatures are taken to verify. */
module SignedRequests {
  import opened SeenCache

  const NS_PER_MS: int := 1_000_000

  /** WINDOW in milliseconds. */
  const WINDOW_MS: int := 300_000

  /** user, nonce and stamp (milliseconds) are signed. The clock is read twice: when the stamp is
      verified, and, under the lock of the nonce cache, now. */
  datatype Request = Request(user: UserId, nonce: string, stamp: int, verified: int, now: int, victim: string)

  predicate SameSigned(a: Request, b: Request) {
    a.user == b.user && a.nonce == b.nonce && a.stamp == b.stamp
  }

  /** time.Now().UnixMilli() */
  function Millis(now: int): int {
    now / NS_PER_MS
  }

  function CheckOf(r: Request): Check {
    Check(r.user, r.nonce, r.now, r.victim)
  }

  predicate InTime(r: Request) {
    var diff := Millis(r.verified) - r.stamp;
    (if diff < 0 then -diff else diff) <= WINDOW_MS
  }

  /** How long the request waited between its two checks, in milliseconds. */
  function Delay(r: Request): int {
    Millis(r.now) - Millis(r.verified)
  }

  /** Only requests stamped in time reach the nonce check. */
  function Checks(rs: seq<Request>): seq<Check> {
    if rs == [] then [] else
      Checks(rs[..|rs| - 1]) + if InTime(rs[|rs| - 1]) then [CheckOf(rs[|rs| - 1])] else []
  }

  /** r is accepted after the requests rs. */
  ghost predicate Accepted(rs: seq<Request>, r: Request) {
    InTime(r) && !Rejects(Run(Checks(rs), true), CheckOf(r), true)
  }

  predicate ClockForward(rs: seq<Request>) {
    forall i, j | 0 <= i < j < |rs| :: rs[i].now <= rs[j].now
  }

  /** Between the acceptance of rs[i] and the check of rs[k] no check dropped the nonce to make room. */
  ghost predicate NotEvicted(rs: seq<Request>, i: nat, k: nat, user: UserId, nonce: string)
    requires i <= k < |rs|
  {
    var cs := Checks(rs[..k + 1]);
    forall c: nat | |Checks(rs[..i])| < c < |cs| :: !EvictedAt(cs, true, c, user, nonce)
  }

  lemma {:induction false} ChecksPrefix(rs: seq<Request>, n: nat)
    requires n <= |rs|
    ensures Checks(rs[..n]) <= Checks(rs)
    decreases |rs|
  {
    if n == |rs| {
      assert rs[..n] == rs;
    } else {
      ChecksPrefix(rs[..|rs| - 1], n);
      assert rs[..|rs| - 1][..n] == rs[..n];
    }
  }

  lemma ChecksAppend(rs: seq<Request>, r: Request)
    requires InTime(r)
    ensures Checks(rs + [r]) == Checks(rs) + [CheckOf(r)]
  {
    assert (rs + [r])[..|rs|] == rs;
  }

  lemma {:induction false} ChecksForward(rs: seq<Request>)
    requires ClockForward(rs)
    ensures NonDecreasing(Checks(rs))
    ensures forall c | c in Checks(rs) :: exists r :: r in rs && c == CheckOf(r)
    decreases |rs|
  {
    if rs != [] {
      var front := rs[..|rs| - 1];
      ChecksForward(front);
      forall c | c in Checks(front) ensures c.now <= rs[|rs| - 1].now && exists r :: r in rs && c == CheckOf(r) {
        var r :| r in front && c == CheckOf(r);
        assert r in rs;
      }
    }
  }

  /** Where rs[i] stands among the checks. */
  lemma CheckAt(rs: seq<Request>, i: nat)
    requires i < |rs| && InTime(rs[i])
    ensures var n := |Checks(rs[..i])|;
            n < |Checks(rs)| && Checks(rs)[n] == CheckOf(rs[i]) && Checks(rs)[..n] == Checks(rs[..i])
    ensures |Checks(rs[..i + 1])| == |Checks(rs[..i])| + 1
  {
    assert rs[..i + 1] == rs[..i] + [rs[i]];
    ChecksAppend(rs[..i], rs[i]);
    ChecksPrefix(rs, i + 1);
    ChecksPrefix(rs, i);
  }

  lemma AcceptedUses(rs: seq<Request>, i: nat)
    requires i < |rs| && Accepted(rs[..i], rs[i])
    ensures Uses(Checks(rs), true, |Checks(rs[..i])|, rs[i].user, rs[i].nonce)
    ensures Checks(rs)[|Checks(rs[..i])|].now == rs[i].now
  {
    CheckAt(rs, i);
  }

  lemma WindowInMillis(a: int, b: int)
    requires b - a >= WINDOW
    ensures Millis(b) >= Millis(a) + WINDOW_MS
  {}

  lemma AcceptedTwiceIsAWindowApart(rs: seq<Request>, i: nat, k: nat)
    requires ClockForward(rs) && i < k == |rs| - 1 && SameSigned(rs[i], rs[k])
    requires Accepted(rs[..i], rs[i]) && Accepted(rs[..k], rs[k])
    requires NotEvicted(rs, i, k, rs[i].user, rs[i].nonce)
    ensures rs[k].now - rs[i].now >= WINDOW
  {
    hide Rejects, Evicts, Run;
    var cs, a, b := Checks(rs), |Checks(rs[..i])|, |Checks(rs[..k])|;
    assert rs[..k + 1] == rs;
    CheckAt(rs, k);
    AcceptedUses(rs, i);
    AcceptedUses(rs, k);
    assert rs[..k][..i + 1] == rs[..i + 1];
    ChecksPrefix(rs[..k], i + 1);
    CheckAt(rs, i);
    ChecksForward(rs);
    assert Remembered(cs, true, a, b + 1, rs[i].user, rs[i].nonce);
    if cs[b].now - cs[a].now < WINDOW {
      RecentUseIsRejected(cs, true, a, b);
    }
  }

  /** With a clock that does not go back and no eviction of its nonce, a signed request is accepted a
      second time only a whole window later at least, and only if its stamp is not before its first
      acceptance (by more than the second handling waited between its checks): stamped before that, it
      is accepted at most once. */
  lemma AcceptedTwiceWasStampedAhead(rs: seq<Request>, i: nat, k: nat)
    requires ClockForward(rs) && i < k < |rs| && SameSigned(rs[i], rs[k])
    requires Accepted(rs[..i], rs[i]) && Accepted(rs[..k], rs[k])
    requires NotEvicted(rs, i, k, rs[i].user, rs[i].nonce)
    ensures rs[k].now - rs[i].now >= WINDOW
    ensures rs[i].stamp >= Millis(rs[i].now) - Delay(rs[k])
  {
    hide *;
    UpTo(rs, i, k, rs[i].user, rs[i].nonce);
    AcceptedTwiceIsAWindowApart(rs[..k + 1], i, k);
    AcceptedInTime(rs[..k], rs[k]);
    StampBound(rs[i], rs[k]);
  }

  /** The run cut off after request k. */
  lemma UpTo(rs: seq<Request>, i: nat, k: nat, user: UserId, nonce: string)
    requires ClockForward(rs) && i < k < |rs| && NotEvicted(rs, i, k, user, nonce)
    ensures var upTo := rs[..k + 1];
            && |upTo| == k + 1 && upTo[i] == rs[i] && upTo[k] == rs[k]
            && upTo[..i] == rs[..i] && upTo[..k] == rs[..k]
            && ClockForward(upTo) && NotEvicted(upTo, i, k, user, nonce)
  {
    hide Checks, EvictedAt;
    var upTo := rs[..k + 1];
    assert upTo[..i] == rs[..i] && upTo[..k] == rs[..k] && upTo[..k + 1] == upTo;
  }

  lemma StampBound(first: Request, second: Request)
    requires SameSigned(first, second) && second.now - first.now >= WINDOW
    requires second.stamp >= Millis(second.verified) - WINDOW_MS
    ensures first.stamp >= Millis(first.now) - Delay(second)
  {
    WindowInMillis(first.now, second.now);
    hide Millis;
  }

  lemma AcceptedInTime(rs: seq<Request>, r: Request)
    requires Accepted(rs, r)
    ensures r.stamp >= Millis(r.verified) - WINDOW_MS
  {
    hide Millis, Rejects, Run, Checks;
  }

  /** The user never makes a check with a thousand of its own already made within the last window. */
  ghost predicate Unhurried(rs: seq<Request>, user: UserId) {
    var cs := Checks(rs);
    forall c: nat | c < |cs| && cs[c].user == user :: RecentBy(cs[..c], user, cs[c].now) < PER_USER_MAX
  }

  lemma UnhurriedIsNotEvicted(rs: seq<Request>, i: nat, k: nat, user: UserId, nonce: string)
    requires i <= k < |rs| && Unhurried(rs[..k + 1], user)
    ensures NotEvicted(rs, i, k, user, nonce)
  {
    hide RecentBy, Run, Checks;
    var cs := Checks(rs[..k + 1]);
    forall c: nat | |Checks(rs[..i])| < c < |cs| ensures !EvictedAt(cs, true, c, user, nonce) {
      if EvictedAt(cs, true, c, user, nonce) {
        EvictionNeedsAThousandRecentChecks(cs, true, c, user, nonce);
      }
    }
  }

  /** Whatever Go's map order picks: for a user who never makes a thousand checks within one window, a
      signed request accepted twice was stamped ahead. */
  lemma UnhurriedAcceptedTwiceWasStampedAhead(rs: seq<Request>, i: nat, k: nat)
    requires ClockForward(rs) && i < k < |rs| && SameSigned(rs[i], rs[k])
    requires Accepted(rs[..i], rs[i]) && Accepted(rs[..k], rs[k])
    requires Unhurried(rs[..k + 1], rs[i].user)
    ensures rs[k].now - rs[i].now >= WINDOW
    ensures rs[i].stamp >= Millis(rs[i].now) - Delay(rs[k])
  {
    hide *;
    UnhurriedIsNotEvicted(rs, i, k, rs[i].user, rs[i].nonce);
    AcceptedTwiceWasStampedAhead(rs, i, k);
  }

  function RequestsAtZero(cs: seq<Check>): (rs: seq<Request>)
    ensures |rs| == |cs|
    ensures forall k | 0 <= k < |cs| :: rs[k] == Request(cs[k].user, cs[k].id, 0, 0, cs[k].now, cs[k].victim)
  {
    seq(|cs|, k requires 0 <= k < |cs| => Request(cs[k].user, cs[k].id, 0, 0, cs[k].now, cs[k].victim))
  }

  lemma {:induction false} ChecksAtZero(cs: seq<Check>)
    ensures Checks(RequestsAtZero(cs)) == cs
    decreases |cs|
  {
    if cs != [] {
      ChecksAtZero(cs[..|cs| - 1]);
      assert RequestsAtZero(cs)[..|cs| - 1] == RequestsAtZero(cs[..|cs| - 1]);
    }
  }

  /** A user at the limit: one signed request accepted twice at one and the same moment, after a thousand
      others of that user's within the window had its nonce dropped. */
  lemma HurriedRequestAcceptedTwiceAtOnce(user: UserId)
    ensures var rs := RequestsAtZero(Overfill(user));
            var k := PER_USER_MAX + 1;
            && ClockForward(rs) && Choices(Checks(rs), true)
            && SameSigned(rs[0], rs[k]) && rs[0].now == rs[k].now
            && Accepted(rs[..0], rs[0]) && Accepted(rs[..k], rs[k])
  {
    hide Rejects, Run, Overfill, Evicts, RecentBy, Choices, Checks;
    var cs, k := Overfill(user), PER_USER_MAX + 1;
    ThousandChecksReopenTheFirst(user, true);
    ChecksAtZero(cs);
    ChecksAtZero(cs[..k]);
    ChecksAtZero(cs[..0]);
    assert RequestsAtZero(cs)[..k] == RequestsAtZero(cs[..k]) && RequestsAtZero(cs)[..0] == RequestsAtZero(cs[..0]);
    assert forall i | 0 <= i < |cs| :: cs[i] in cs;
    assert CheckOf(RequestsAtZero(cs)[k]) == cs[k] && CheckOf(RequestsAtZero(cs)[0]) == cs[0];
  }

  /** Conversely a request so stamped, sent again so that its nonce is checked exactly one window after
      the first acceptance, is accepted again, whatever was handled before. */
  lemma StampedAheadIsAcceptedAgain(rs: seq<Request>, r: Request, again: Request)
    requires Accepted(rs, r) && r.stamp >= Millis(r.now) - Delay(again)
    requires SameSigned(r, again) && again.now == r.now + WINDOW && r.verified <= r.now <= again.verified
    ensures Accepted(rs + [r], again)
  {
    ChecksAppend(rs, r);
    var cs, c := Checks(rs), CheckOf(r);
    assert (cs + [c])[..|cs|] == cs;
    LaterInTime(r, again);
    HeldSince(Run(cs, true), c, CheckOf(again));
  }

  lemma LaterInTime(r: Request, again: Request)
    requires InTime(r) && r.stamp >= Millis(r.now) - Delay(again)
    requires SameSigned(r, again) && again.now == r.now + WINDOW && r.verified <= r.now <= again.verified
    ensures InTime(again)
  {
    OneWindowLater(r.now);
    MillisRise(r.verified, r.now);
    MillisRise(r.now, again.verified);
    hide Millis;
  }

  lemma OneWindowLater(a: int)
    ensures Millis(a + WINDOW) == Millis(a) + WINDOW_MS
  {}

  lemma MillisRise(a: int, b: int)
    requires a <= b
    ensures Millis(a) <= Millis(b)
  {}

  lemma HeldSince(c: Cache, first: Check, again: Check)
    requires !Rejects(c, first, true)
    requires again.user == first.user && again.id == first.id && again.now - first.now >= WINDOW
    ensures !Rejects(Next(c, first, true), again, true)
  {
    hide Prepared, Candidates;
    var after := Next(c, first, true);
    assert Holds(after, first.user, first.id, first.now);
    if Rejects(after, again, true) {
      LookedUpKeeps(after, again, again.id, LookedUp(after, again)[again.id]);
    }
  }

  /** A request stamped at the very moment of its first acceptance is accepted twice in two requests,
      with nothing else handled and nothing evicted. */
  lemma TwoRequestsAcceptedTwice(user: UserId, nonce: string, victim: string)
    ensures var r := Request(user, nonce, 0, 0, 0, victim);
            var again := Request(user, nonce, 0, WINDOW, WINDOW, victim);
            && Accepted([], r) && Accepted([r], again)
            && NotEvicted([r, again], 0, 1, user, nonce)
  {
    var r := Request(user, nonce, 0, 0, 0, victim);
    var again := Request(user, nonce, 0, WINDOW, WINDOW, victim);
    NothingRejectedAtFirst(CheckOf(r));
    assert Accepted([], r);
    StampedAheadIsAcceptedAgain([], r, again);
    assert [] + [r] == [r] && [r, again][..0] == [] && [r, again][..2] == [r] + [again];
    ChecksAppend([], r);
    ChecksAppend([r], again);
    var cs := Checks([r, again][..2]);
    assert cs == [CheckOf(r), CheckOf(again)] && cs[..1] == [CheckOf(r)];
    FirstUse(CheckOf(r), true);
    OneEntryHasRoom(map[user := map[nonce := 0]], CheckOf(again), user, nonce);
  }

  lemma OneEntryHasRoom(c: Cache, e: Check, u: UserId, id: string)
    requires |c| == 1 && |EntriesOf(c, e.user)| == 1
    ensures !Evicts(c, e, u, id)
  {}

  lemma NothingRejectedAtFirst(e: Check)
    ensures !Rejects(Run([], true), e, true)
  {
    assert |EntriesOf(map[], e.user)| == 0;
  }

  // ---------- how far a stamp may lie from the clock ----------

  /** A request stamped more than five minutes before or after the clock is never accepted, whatever was
      handled before. */
  lemma FarStampIsNeverAccepted(rs: seq<Request>, r: Request)
    requires r.stamp > Millis(r.verified) + 300_000 || r.stamp < Millis(r.verified) - 300_000
    ensures !Accepted(rs, r)
  {
    hide Millis, Rejects, Run, Checks;
  }

  /** And it leaves no trace: every other request is accepted as if it had not been sent. */
  lemma FarStampLeavesNoTrace(rs: seq<Request>, far: Request, r: Request)
    requires far.stamp > Millis(far.verified) + 300_000 || far.stamp < Millis(far.verified) - 300_000
    ensures Accepted(rs + [far], r) <==> Accepted(rs, r)
  {
    hide Millis, Rejects, Run;
    assert (rs + [far])[..|rs|] == rs && Checks(rs) + [] == Checks(rs);
    assert Checks(rs + [far]) == Checks(rs);
  }

  /** A request stamped within five minutes of the clock is accepted when its nonce was not used by its
      user within the last window, whatever else was handled. */
  lemma FreshNonceIsAccepted(rs: seq<Request>, r: Request)
    requires Millis(r.verified) - 300_000 <= r.stamp <= Millis(r.verified) + 300_000
    requires forall q | q in rs && q.user == r.user && q.nonce == r.nonce :: r.now - q.now >= WINDOW
    ensures Accepted(rs, r)
  {
    hide Millis, Rejects, Run;
    var cs, c := Checks(rs), CheckOf(r);
    ChecksAreRequests(rs);
    assert (cs + [c])[..|cs|] == cs;
    assert forall j | 0 <= j < |cs| :: (cs + [c])[j] == cs[j] && cs[j] in cs;
    OnlyNoncesExpire(cs + [c], |cs|);
  }

  lemma {:induction false} ChecksAreRequests(rs: seq<Request>)
    ensures forall c | c in Checks(rs) :: exists r :: r in rs && c == CheckOf(r)
    decreases |rs|
  {
    if rs != [] {
      var front := rs[..|rs| - 1];
      ChecksAreRequests(front);
      forall c | c in Checks(front) ensures exists r :: r in rs && c == CheckOf(r) {
        var r :| r in front && c == CheckOf(r);
        assert r in rs;
      }
    }
  }

  /** Any two acceptances of one signed request lie within ten minutes of each other, evictions or not. */
  lemma AcceptancesLieWithinTenMinutes(rs: seq<Request>, i: nat, k: nat)
    requires i < |rs| && k < |rs| && SameSigned(rs[i], rs[k])
    requires Accepted(rs[..i], rs[i]) && Accepted(rs[..k], rs[k])
    ensures Millis(rs[k].verified) - Millis(rs[i].verified) <= 600_000
  {
    hide Millis, Rejects, Run, Checks;
  }

  // ---------- how often one signed request is accepted ----------

  lemma UnhurriedBefore(rs: seq<Request>, n: nat, user: UserId)
    requires n <= |rs| && Unhurried(rs, user)
    ensures Unhurried(rs[..n], user)
  {
    hide RecentBy, Checks;
    ChecksPrefix(rs, n);
    var all, cs := Checks(rs), Checks(rs[..n]);
    assert forall c: nat | c < |cs| :: cs[..c] == all[..c] && cs[c] == all[c];
  }

  /** A user who never makes a thousand checks within one window, and whose requests are checked without
      delay: one signed request is accepted three times at most. */
  lemma AcceptedThreeTimesAtMost(rs: seq<Request>, i: nat, j: nat, k: nat, l: nat)
    requires ClockForward(rs) && i < j < k < l < |rs| && Unhurried(rs, rs[i].user)
    requires SameSigned(rs[i], rs[j]) && SameSigned(rs[i], rs[k]) && SameSigned(rs[i], rs[l])
    requires rs[i].verified == rs[i].now && rs[l].verified == rs[l].now
    ensures !(Accepted(rs[..i], rs[i]) && Accepted(rs[..j], rs[j]) && Accepted(rs[..k], rs[k]) &&
              Accepted(rs[..l], rs[l]))
  {
    hide *;
    if Accepted(rs[..i], rs[i]) && Accepted(rs[..j], rs[j]) && Accepted(rs[..k], rs[k]) && Accepted(rs[..l], rs[l]) {
      SameSignedAll(rs[i], rs[j], rs[k], rs[l]);
      UnhurriedBefore(rs, j + 1, rs[i].user);
      UnhurriedBefore(rs, k + 1, rs[i].user);
      UnhurriedBefore(rs, l + 1, rs[i].user);
      UnhurriedAcceptedTwiceWasStampedAhead(rs, i, j);
      UnhurriedAcceptedTwiceWasStampedAhead(rs, j, k);
      UnhurriedAcceptedTwiceWasStampedAhead(rs, k, l);
      AcceptancesLieWithinTenMinutes(rs, i, l);
      ThreeWindowsApart(rs[i].now, rs[j].now, rs[k].now, rs[l].now);
    }
  }

  lemma SameSignedAll(a: Request, b: Request, c: Request, d: Request)
    requires SameSigned(a, b) && SameSigned(a, c) && SameSigned(a, d)
    ensures SameSigned(b, c) && SameSigned(c, d) && b.user == a.user && c.user == a.user && d.user == a.user
  {}

  lemma ThreeWindowsApart(a: int, b: int, c: int, d: int)
    requires b - a >= WINDOW && c - b >= WINDOW && d - c >= WINDOW
    ensures Millis(d) - Millis(a) > 600_000
  {
    WindowInMillis(a, b);
    WindowInMillis(b, c);
    WindowInMillis(c, d);
  }

  /** Three times is possible: stamped five minutes ahead, a request is accepted at once, at the time of its
      stamp, and five minutes after it. */
  lemma AcceptedThreeTimes(user: UserId, nonce: string, victim: string)
    ensures var first := Request(user, nonce, 300_000, 0, 0, victim);
            var second := Request(user, nonce, 300_000, WINDOW, WINDOW, victim);
            var third := Request(user, nonce, 300_000, 2 * WINDOW, 2 * WINDOW, victim);
            Accepted([], first) && Accepted([first], second) && Accepted([first, second], third)
  {
    var first := Request(user, nonce, 300_000, 0, 0, victim);
    var second := Request(user, nonce, 300_000, WINDOW, WINDOW, victim);
    var third := Request(user, nonce, 300_000, 2 * WINDOW, 2 * WINDOW, victim);
    FreshNonceIsAccepted([], first);
    FreshNonceIsAccepted([first], second);
    FreshNonceIsAccepted([first, second], third);
  }
}
