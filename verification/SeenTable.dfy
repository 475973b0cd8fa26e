/** The nonce and message-id maps as the server keeps them, swept and filled in place under a mutex. */
module SeenTable {
  import opened SeenCache

  /** Removes the entries that are older than a window. */
  method DeleteStale(m: Seen, now: int) returns (left: Seen)
    ensures left == Fresh(m, now)
  {
    left := m;
    var rest := m.Keys;
    while rest != {}
      invariant rest <= m.Keys
      invariant left == m - (Stale(m, now) - rest)
      decreases |rest|
    {
      var id :| id in rest;
      if now - m[id] > WINDOW {
        left := left - {id};
      }
      rest := rest - {id};
    }
    assert Stale(m, now) - {} == Stale(m, now);
  }

  /** The users of c outside rest have been swept. */
  ghost predicate SweptExcept(c: Cache, now: int, rest: set<UserId>, left: Cache) {
    && (forall u :: u in left <==> u in c && (u in rest || Fresh(c[u], now) != map[]))
    && forall u | u in left :: left[u] == if u in rest then c[u] else Fresh(c[u], now)
  }

  method DeleteAllStale(c: Cache, now: int) returns (left: Cache)
    ensures left == SweepAll(c, now)
  {
    hide SweepAll, Fresh;
    left := c;
    var rest := c.Keys;
    while rest != {}
      invariant rest <= c.Keys
      invariant SweptExcept(c, now, rest, left)
      decreases |rest|
    {
      var u :| u in rest;
      var m := DeleteStale(left[u], now);
      left := if m.Keys == {} then left - {u} else left[u := m];
      assert m == map[] <==> m.Keys == {};
      rest := rest - {u};
    }
    SweptUnique(c, now, left, SweepAll(c, now));
  }

  /** Removes one entry, whichever the iteration meets first. */
  method DeleteAny(m: Seen) returns (left: Seen, victim: string)
    requires m.Keys != {}
    ensures victim in m && left == m - {victim}
  {
    victim :| victim in m.Keys;
    left := m - {victim};
  }

  /** The sweeps: all users' entries when there are many users, this user's when at the limit. */
  method Sweep(c: Cache, user: UserId, now: int) returns (left: Cache, m: Seen)
    ensures left == Prepared(c, now)
    ensures m == Trimmed(EntriesOf(left, user), now)
  {
    hide SweepAll, Fresh;
    left, m := c, map[];
    if |left| >= SWEEP_FROM {
      left := DeleteAllStale(left, now);
    }
    if user in left {
      m := left[user];
    }
    if |m| >= PER_USER_MAX {
      m := DeleteStale(m, now);
    }
  }

  class Table {
    /** Nonces expire after a window; direct-message ids count as long as they are held. */
    const windowed: bool
    var seen: Cache

    constructor (windowed: bool)
      ensures seen == map[] && this.windowed == windowed
    {
      this.windowed := windowed;
      seen := map[];
    }

    /** CheckNonce and isReplay: true means already used. */
    method CheckUsed(user: UserId, id: string, now: int) returns (used: bool, ghost victim: string)
      modifies this
      ensures var e := Check(user, id, now, victim);
              && Chooses(old(seen), e)
              && used == Rejects(old(seen), e, windowed)
              && seen == Next(old(seen), e, windowed)
    {
      hide Prepared, Trimmed, EntriesOf;
      victim := "";
      var left, m := Sweep(seen, user, now);
      ghost var swept := m;
      if |m| >= PER_USER_MAX {
        assert |m.Keys| == |m|;
        m, victim := DeleteAny(m);
      }
      ghost var e := Check(user, id, now, victim);
      assert Candidates(seen, e) == swept;
      assert LookedUp(seen, e) == m;
      hide LookedUp, Candidates;
      used := id in m && (!windowed || now - m[id] < WINDOW);
      if !used {
        m := m[id := now];
      }
      seen := left[user := m];
    }
  }
}
